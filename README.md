# League simulation engine, modelled in Dafny

This project models the season-simulation engine of a football league
forecaster. The engine has two parts.

1. **Walk-forward feature pass** (`FeatureEngineering`, feature_engineering.py).
   It replays matches in chronological order. Each team carries its points,
   goals-for and goals-against lists and an Elo rating that starts at 1000.
   Before a match is applied, the pass takes a snapshot of both sides: their
   rolling averages over the last `w` entries (0 with no history) and their
   current ratings. Then it records the result (3/1/0 points, goals on both
   sides) and moves the ratings by `K * (actual - expected)` with K = 20.
2. **Monte Carlo standings engine** (`Season`, `Ranking`, `MonteCarlo`,
   simulate_league.py).
   - It splits the schedule at a start matchday.
   - It tallies a points and goal-difference baseline from the played matches.
   - It builds a feature row for each remaining fixture.
   - For each trial it samples a capped scoreline per fixture and adds the
     results to copies of the baseline.
   - It ranks each trial's table by points, then goal difference.
   - It counts how often each team finishes in each position.
   - It normalises each team's counts to percentages over positions 1 to 20.

`Dicts` models Python's insertion-ordered `dict`/`defaultdict`/`Counter`: a key
sequence plus a map. The model needs the order for three things:
- the ranking table's columns;
- where the stable sort breaks ties;
- sums over `dict.values()`.

`Outcome.Result` stands for a value or the exception the code would raise.

Other code is supplied as parameters, collected in `MonteCarlo.Engine`:
- the random number generator is `draw(trial, fixture, λhome, λaway)`;
- the fitted goal models are `predict(features)`;
- the floating-point Elo expectation is `expectedScore(ratingDiff)`;
- the configuration values `START_MATCHDAY` and `MAX_GOALS` are `start` and `maxGoals`;
- `window` is `rolling_window`. The simulator does not configure it and leaves it at its default of 5 (feature_engineering.py:20, simulate_league.py:74). The model keeps `window` a parameter, whereas it fixes K at its default of 20.

The feature pass is run by the simulator on the remaining matches only
(simulate_league.py:74). Every rating there starts again at 1000 and every
list starts empty at the start matchday, whatever the played matches showed.
The feature rows are computed once, from the recorded results of the
remaining matches that precede each fixture, and are the same in every trial;
simulated scores never feed back into them.

Some points where the code is less obvious than it may look:
- **Rolling window.** The code keeps each team's whole lists and averages
  the last `w` entries. A tracker that evicted entries beyond the window
  would give the same averages: `FeatureEngineering.AvgOfWindow` proves that
  averaging only the window's contents gives the same result, and
  `FeatureEngineering.AvgOnlyRecent` that two histories of any lengths with
  the same last `w` entries have the same average.
- **Histogram normalisation.** The code divides each histogram row by the
  row's own total (simulate_league.py:101), not by the number of trials.
  `MonteCarlo.HistoCounts` proves the total is exactly the number of trials,
  because each trial ranks every team once.
- **Teams not in the baseline.** A fixture that names a team with no played
  match is not an error: the `defaultdict` silently adds the team, and so
  does the model.
- **Ties.** After points and goal difference, ties keep the order of the
  table's rows (a stable sort), which is the order the points dict first saw
  the teams, not alphabetical order.
- **The ranking table.** The code builds the table from two dicts whose key
  orders may differ, which misattributes goal differences or raises
  (see "## Findings"). `MonteCarlo.SimulateManySeasons` ranks every trial
  with the corrected table, `Ranking.TableByKey`, which pairs each team with
  its own points and goal difference.

## Model

| member | source | states |
|---|---|---|
| FeatureEngineering.CalculatePoints | feature_engineering.py:12-18 | home win gives (3,0), away win (0,3), draw (1,1), each if and only if |
| FeatureEngineering.Window | feature_engineering.py:40 | the slice `lst[-w:]`: the last `w` entries, or the whole list when it is shorter; its properties are proved by the Avg lemmas below |
| FeatureEngineering.Avg | feature_engineering.py:39-40 | the mean of the window, and 0 for an empty history; bounded by `FeatureEngineering.AvgBounds` |
| FeatureEngineering.AvgOfWindow | feature_engineering.py:39-40 | averaging only the window's contents gives the same result, so a tracker that evicted older entries would report the same averages |
| FeatureEngineering.AvgOnlyRecent | feature_engineering.py:39-40 | two histories of any lengths, each at least `w` long, that end in the same `w` entries have the same rolling average |
| FeatureEngineering.AvgForgetsOldest | feature_engineering.py:39-40 | once a history is longer than the window, its oldest entry does not affect the average |
| FeatureEngineering.AvgBounds | feature_engineering.py:39-40 | a rolling average lies between the least and greatest value entered (0 for an empty history) |
| FeatureEngineering.Touch | feature_engineering.py:24-37 | looking a team up creates a fresh state (no history, rating 1000) only when it is new, and changes no other team |
| FeatureEngineering.TouchTwice | feature_engineering.py:36-37 | both sides of a match see the state they already had, or a fresh one |
| FeatureEngineering.RecordResult | feature_engineering.py:60-66 | appends the result to both sides' lists, keeping the set and order of teams; see `FeatureEngineering.StepAppendsOneEntry` |
| FeatureEngineering.ExpectedHome | feature_engineering.py:69 | the home side's expected score, a function of the away rating minus the home rating, read before either rating moves |
| FeatureEngineering.UpdateElo | feature_engineering.py:68-72 | moves both ratings by K times (actual minus expected), keeping the set and order of teams; see `FeatureEngineering.UpdateEloDeltas` |
| FeatureEngineering.Step | feature_engineering.py:32-72 | one iteration of the loop: both sides looked up, result recorded, ratings moved; the teams present afterwards are those before plus the match's two sides |
| FeatureEngineering.Replay | feature_engineering.py:24-72 | the team states after the loop over a run of matches; the teams with a state are exactly those that played (`FeatureEngineering.ReplayTeams`) |
| FeatureEngineering.ActualHome | feature_engineering.py:70 | the home result counts 1 for a win, 0.5 for a draw and 0 for a loss, each if and only if |
| FeatureEngineering.ReplayTeams | feature_engineering.py:32-37 | after a replay, exactly the teams that played have a state |
| FeatureEngineering.StepAppendsOneEntry | feature_engineering.py:60-66 | a match appends exactly one points, goals-for and goals-against entry to each side |
| FeatureEngineering.StepLeavesOthers | feature_engineering.py:32-72 | a match leaves every other team's state and presence unchanged |
| FeatureEngineering.StepCrossesGoals | feature_engineering.py:63-66 | one side's new goals-for entry is the other side's new goals-against entry |
| FeatureEngineering.RatingsBeforeUpdate | feature_engineering.py:60-69 | recording the result does not touch the ratings, so the expectation uses pre-match ratings |
| FeatureEngineering.UpdateEloDeltas | feature_engineering.py:71-72 | the home rating rises by exactly what the away rating falls |
| FeatureEngineering.StepEloZeroSum | feature_engineering.py:69-72 | over a whole match step, the two ratings move by opposite amounts K*(actual-expected) |
| FeatureEngineering.EloMovesWithResult | feature_engineering.py:69-72 | with an expectation in [0,1], the winner's rating does not fall and the loser's does not rise |
| FeatureEngineering.StepKeepsBalance | feature_engineering.py:24-72 | a match step keeps the sum of all ratings equal to 1000 times the number of teams |
| FeatureEngineering.ReplayEloTotal | feature_engineering.py:28-72 | after any replay, the ratings sum to 1000 per team seen |
| FeatureEngineering.Snapshot | feature_engineering.py:42-56 | one feature row from the two sides' states: the matchday, the six rolling averages and both ratings |
| FeatureEngineering.FeaturesAt | feature_engineering.py:42-56 | the snapshot of both sides before match i: matchday, the six averages and the two ratings; see `FeatureEngineering.FeatureRowsAt` |
| FeatureEngineering.FeatureRows | feature_engineering.py:30-58 | one feature row per match, in match order |
| FeatureEngineering.FeatureRowsAt | feature_engineering.py:42-58 | the i-th feature row is the snapshot of the state built from the matches before i |
| FeatureEngineering.FeaturesBeforeResult | feature_engineering.py:42-58 | a match's feature row depends only on earlier matches and its own matchday and teams, never on its score |
| FeatureEngineering.ColdStart | feature_engineering.py:39-53 | a team's first match shows averages of 0 and rating 1000 |
| FeatureEngineering.GoalsAt | feature_engineering.py:77-78 | the i-th home and away targets are the i-th match's scores |
| FeatureEngineering.EngineerFeatureGoals | feature_engineering.py:20-80 | fails (the `KeyError` of dropping columns from an empty frame) exactly when there is no match; otherwise returns one snapshot row per match, taken before that match, and the goal targets in match order |
| Season.SampleScore | simulate_league.py:16-19 | each side's goals are the draw when it is at most the cap and the cap otherwise, never negative for a non-negative cap |
| Season.AwardPoints | simulate_league.py:39-45 | adds 3 to the winner, or 1 to each side for a draw; its effect is stated by `Season.AwardPointsRule` |
| Season.AddGoalDifference | simulate_league.py:36-37 | adds the margin to the home side and subtracts it from the away side; its effect is stated by `Season.GoalDifferenceRule` |
| Season.ApplyResult | simulate_league.py:36-45 | one iteration of the fixture loop: the goal-difference update, then the points update |
| Season.Tally | simulate_league.py:25-45 | the points and goal-difference dicts after a run of results; only teams of those results are added |
| Season.AwardPointsRule | simulate_league.py:39-45 | the winner gains 3, a draw gives 1 to each side, and a side that gains 0 is not added to the points dict |
| Season.AwardPointsTotal | simulate_league.py:39-45 | a match adds 3 points to the league total, or 2 for a draw |
| Season.GoalDifferenceRule | simulate_league.py:36-37 | the home side gains the margin and the away side loses it, and no other team changes |
| Season.GoalDifferenceZeroSum | simulate_league.py:36-37 | a match leaves the league's goal-difference total unchanged |
| Season.TallyTotals | simulate_league.py:25-45 | after a run of matches, total goal difference is unchanged and total points grow by 3 per match less 1 per draw |
| Season.PointsBetween | simulate_league.py:39-45 | a run of n matches adds between 2n and 3n points |
| Season.TallyGdTeams | simulate_league.py:36-37 | the goal-difference dict gains exactly the teams that played |
| Season.TallyPointsTeams | simulate_league.py:39-45 | the points dict gains exactly the teams that won or drew at least once |
| Season.Past | simulate_league.py:53 | the matches before the start matchday, in order; see `Season.PastMembers` |
| Season.Future | simulate_league.py:54 | the matches from the start matchday on, in order; see `Season.FutureMembers` |
| Season.PastMembers | simulate_league.py:53 | the played part holds exactly the matches before the start matchday |
| Season.FutureMembers | simulate_league.py:54 | the remaining part holds exactly the matches from the start matchday on |
| Season.SplitPartitions | simulate_league.py:53-54 | the two parts together are the schedule as a multiset |
| Season.SplitLengths | simulate_league.py:53-54 | the two parts' lengths add up to the schedule's |
| Season.SplitKeepsTeams | simulate_league.py:53-54 | the teams of the two parts together are the league's teams |
| Season.BuildBaseline | simulate_league.py:56-72 | the baseline is the tally of the played matches: goal differences sum to 0, points total 3 per match less 1 per draw, and every team that played has a goal difference |
| Season.Scoreline | simulate_league.py:29-34 | a sampled scoreline keeps the fixture's teams, and its goals lie within 0 and the cap |
| Season.Scorelines | simulate_league.py:25-34 | one trial's sampled results, one per fixture and in fixture order (as long as the fixture list) |
| Season.ScorelinesTeams | simulate_league.py:25-34 | one trial's sampled results involve exactly the fixtures' teams |
| Season.ScorelineAt | simulate_league.py:25-31 | the j-th sampled result comes from the j-th fixture with that fixture's predicted rates |
| Season.SimulateSeason | simulate_league.py:21-47 | a trial's standings are the baseline plus the tally of the sampled results: total goal difference kept, between 2 and 3 points per fixture, and every fixture team with a goal difference |
| Ranking.TableAsWrittenRows | simulate_league.py:88-92 | the table as written fails exactly when the dicts differ in length; otherwise row i pairs the i-th points key with the i-th goal difference in the gd dict's own order |
| Ranking.TableAsWritten | simulate_league.py:88-91 | the table the code builds, or the pandas error; stated by `Ranking.TableAsWrittenRows` |
| Ranking.TableByKey | simulate_league.py:88-91 | the corrected table, with one row per team of either dict |
| Ranking.TableByKeyRows | simulate_league.py:88-92 | the corrected table lists each team that has points or a goal difference once, with its own points and goal difference |
| Ranking.AsWrittenWhenAligned | simulate_league.py:88-92 | when both dicts list the same keys in the same order, the table as written equals the corrected table |
| Ranking.TableTeamsOnce | simulate_league.py:88-92 | the corrected table names each team of either dict exactly once |
| Ranking.Rank | simulate_league.py:92 | the table sorted by points, then goal difference, by stable insertion; it keeps the table's length, and `Ranking.RankSorted` states the order and the permutation |
| Ranking.RankSorted | simulate_league.py:92 | the ranked table is ordered by points, then goal difference, both descending, and is a permutation of the table |
| Ranking.RankStable | simulate_league.py:92 | rows with equal points and goal difference keep their relative order |
| Ranking.RankOrder | simulate_league.py:92 | a row strictly above another in (points, gd) is placed before it |
| Ranking.RankTeams | simulate_league.py:92-94 | ranking neither adds, drops nor repeats a team |
| Ranking.RankPair | simulate_league.py:92 | two rows swap only when the second is strictly above the first |
| Ranking.MisalignedGoalDifference | simulate_league.py:88-92 | a loses 0-1 to b, then beats b 3-0: as written, b is given +2 and ranked first; by key, a ranks first |
| Ranking.TablesLevelOnPoints | simulate_league.py:88-92 | with two teams level on points and the dicts' keys in opposite orders, the table as written swaps their goal differences and ranks them in the opposite order to the by-key table |
| Ranking.ResultKeepsKeys | simulate_league.py:36-45 | a result between two teams already in both dicts leaves both dicts' key orders unchanged |
| Ranking.MisalignedInEveryTrial | simulate_league.py:86-92 | after the two played matches above, any score in a third a-b meeting gives the as-written table with each side holding the other's goal difference, and a 0-0 draw ranks b (4 points, +2) above a (4 points, -2), while by key a ranks first |
| Ranking.LostOnlyMatchRaises | simulate_league.py:88-92 | on the standings after a beats b 1-0, the table as written fails because b has no points entry; by key, both teams are ranked |
| Ranking.LostOnlyMatchRaisesEveryTrial | simulate_league.py:86-92 | after a beats b 1-0, any score in a remaining a-c fixture leaves b without a points entry but with a goal difference, so the table as written fails in every trial |
| MonteCarlo.RecordTable | simulate_league.py:94-95 | the counters after one trial's table is recorded; the team set is unchanged |
| MonteCarlo.RecordTableAt | simulate_league.py:94-95 | recording a table adds one finish at position p to the team ranked p-th, and nothing at p to any other team |
| MonteCarlo.RecordTrial | simulate_league.py:94-95 | one trial adds 1 at position p to the counter of the team ranked p-th, for each p |
| MonteCarlo.RecordCounts | simulate_league.py:94-95 | a trial raises a team's count total by the number of times it appears in the table |
| MonteCarlo.RecordPositions | simulate_league.py:94-97 | with at most 20 ranked teams, a trial raises a team's counts over positions 1 to 20 by its appearances |
| MonteCarlo.PercentRow | simulate_league.py:102-103 | one team's percentages for positions 1 to n, as long as n; entries are given by `MonteCarlo.PercentRowAt` |
| MonteCarlo.PercentRowAt | simulate_league.py:102-103 | position p's entry is 100 times the count at p over the total, and 0 where p was never reached |
| MonteCarlo.PercentRowSum | simulate_league.py:101-103 | a row sums to 100 times the share of counts that fall in positions 1 to 20 |
| MonteCarlo.PercentBounds | simulate_league.py:103 | every percentage lies in [0,100] |
| MonteCarlo.NormaliseRow | simulate_league.py:99-104 | a row fails (division by zero) exactly when the team's total is 0; otherwise it is the percentage row |
| MonteCarlo.Normalise | simulate_league.py:97-104 | normalising succeeds exactly when every team has a non-zero total, and then gives each team its percentage row |
| MonteCarlo.Fixtures | simulate_league.py:74-80 | the corrected pairing: the k-th remaining match with the k-th feature row, one fixture per match |
| MonteCarlo.FixturesAt | simulate_league.py:74-80 | fixture j has match j's teams and feature row j |
| MonteCarlo.FixturesTeams | simulate_league.py:74-80 | the feature-annotated fixtures involve exactly the remaining matches' teams |
| MonteCarlo.FutureLabels | simulate_league.py:51-54 | the row labels the remaining matches keep: their positions in the full, re-indexed match list, one per remaining match |
| MonteCarlo.FutureLabelsAt | simulate_league.py:51-54 | the j-th label is a valid position in the full match list, and the match at that position is the j-th remaining match |
| MonteCarlo.FixturesByLabel | simulate_league.py:76-80 | the pairing as written: each remaining match gets the feature row whose label equals its own, or a row of zeros when there is none, one fixture per match |
| MonteCarlo.FixturesByLabelAt | simulate_league.py:76-80 | fixture j has match j's teams and the feature row at match j's label |
| MonteCarlo.RemainingAsWritten | simulate_league.py:74-80 | the remaining fixtures as the code builds them: features computed over the remaining matches and matched to them by row label, one fixture per remaining match |
| MonteCarlo.LabelsWhenNothingPlayed | simulate_league.py:51-54 | with no match before the start matchday, every match remains and keeps its own position as label |
| MonteCarlo.AlignedWhenNothingPlayed | simulate_league.py:74-80 | with no match before the start matchday, the pairing as written equals the corrected one |
| MonteCarlo.MisalignedFeatures | simulate_league.py:74-80 | with one a-b match on matchday 1 and one on matchday 2 and start matchday 2, the pairing as written gives the fixture a blank row, while the corrected one gives matchday 2 and ratings of 1000 |
| MonteCarlo.Remaining | simulate_league.py:74-80 | the corrected pairing used by the simulator: features computed over the remaining matches only, and the k-th feature row given to the k-th remaining match by position |
| MonteCarlo.Baseline | simulate_league.py:56-72 | the standings after the played matches |
| MonteCarlo.TrialStandings | simulate_league.py:86 | a trial's final standings: the baseline with the trial's sampled results tallied on top |
| MonteCarlo.TrialTable | simulate_league.py:88-94 | a trial's ranked team column, from the corrected table |
| MonteCarlo.TrialStandingsTeams | simulate_league.py:82-86 | every team in the league has a goal difference after a trial, and only league teams have points |
| MonteCarlo.TrialTableTeams | simulate_league.py:82-94 | each trial's ranking names every league team exactly once and nothing else |
| MonteCarlo.TrialTableLength | simulate_league.py:88-94 | each trial's ranking is as long as the league |
| MonteCarlo.Start | simulate_league.py:82-83 | one empty counter per league team: every total and every position count is 0 |
| MonteCarlo.Histo | simulate_league.py:83-95 | the counters after n trials, one per league team |
| MonteCarlo.Finishes | simulate_league.py:85-95 | the number of trials among the first n in which a team finished at position p, at most n |
| MonteCarlo.CountAt | simulate_league.py:85-95 | counting n trial tables adds, at position p, one for each table that ranks the team p-th |
| MonteCarlo.HistoAt | simulate_league.py:83-95 | after n trials, a team's count at position p is exactly the number of trials in which it finished p-th |
| MonteCarlo.HistoStep | simulate_league.py:85-95 | the histogram after n+1 trials is the histogram after n trials with trial n's ranking recorded |
| MonteCarlo.HistoCounts | simulate_league.py:83-101 | after n trials, every team's counts total exactly n |
| MonteCarlo.HistoPositions | simulate_league.py:83-97 | in a league of at most 20 teams, every team's counts over positions 1 to 20 total n |
| MonteCarlo.LeagueRows | simulate_league.py:97-104 | in a league of at most 20 teams, after at least one trial, every team's row sums to 100 and each entry lies in [0,100] |
| MonteCarlo.HistoTotals | simulate_league.py:99-101 | after n trials, every counter's total is n |
| MonteCarlo.RunTrials | simulate_league.py:85-95 | the trial loop, started from the played standings and the remaining fixtures, returns the histogram of all the trials |
| MonteCarlo.SimulateManySeasons | simulate_league.py:49-107 | the result exists exactly when some match remains (otherwise the feature pass raises `KeyError`) and at least one trial ran (otherwise the normalisation divides by zero); it has a row for every league team, and each row is the percentage row of the histogram over all trials |

## Left out

- The Poisson sampler (`np.random.poisson`) is the `draw` parameter. No distribution is modelled, only the cap at `maxGoals` applied to whatever is drawn.
- The fitted goal models and the row-to-frame conversion before prediction (simulate_league.py:26-30) are the `predict` parameter.
- The Elo expectation `1 / (1 + 10 ** (diff / 400))` is floating point and is the `expectedScore` parameter. The K-factor is fixed at its default, 20.
- Ratings and percentages are exact reals, so there is no floating-point rounding. `round(..., 2)` at simulate_league.py:103 is not modelled.
- Loading and cleaning data is not modelled: CSV reading, the FINISHED filter, the `notnull` filter and the date sort (feature_engineering.py:5-10, simulate_league.py:50-51). Matches arrive already in date order, each with an integer matchday.
- Reading the YAML configuration (simulate_league.py:9-14) becomes the `start`, `maxGoals` and trial-count inputs. The progress bar, the model file and the `__main__` blocks are left out.
- The DataFrame assembly at feature_engineering.py:74-76 is modelled only in its failure on an empty match list, which `FeatureEngineering.EngineerFeatureGoals` returns as `Err`. The frame itself is not modelled: `FeatureEngineering.Features` holds exactly the kept columns.
- The `to_numeric`/`fillna(0)` clean-up at simulate_league.py:77-80 is modelled only where it matters: a feature row missing for a label becomes `MonteCarlo.Blank`, all zeros. Columns are already numeric in the model.
- MonteCarlo.SimulateManySeasons: ranks every trial with the corrected table, `Ranking.TableByKey`, and pairs fixtures with feature rows by position (`MonteCarlo.Fixtures`). It therefore does not reproduce the first two findings below (goal differences misattributed, or the `ValueError`) nor the third (feature rows matched by label). Those behaviours are modelled separately, in `Ranking.TableAsWritten` and `MonteCarlo.RemainingAsWritten`.
- The final `sort_values("1")` (simulate_league.py:106) and the sorted `team_list` order (simulate_league.py:82) are not modelled. The result is a map from team to row, so row order is not captured.
- The sort at simulate_league.py:92 is modelled as a stable sort by (points, goal difference) descending. That is the order pandas' multi-key sort gives.
- MonteCarlo.RecordTrial: requires every ranked team to have a counter. The code would raise `KeyError` otherwise; `MonteCarlo.TrialTableWithin` shows the corrected table never ranks an unknown team.
- Parallelism across trials is not modelled. Trials are run in order, and trial `i` samples with `draw(i, ...)`.
- Data ingestion, model training, the dashboard, the plots and the PDF report are not part of this model.

## Findings

| source | as written | input that shows it | evidently intended | confidence | as-written member | corrected member |
|---|---|---|---|---|---|---|
| simulate_league.py:88-92 | the `gd` column lists the goal differences in the gd dict's own key order, while `team` and `pts` follow the points dict's key order | played matches: a loses 0-1 at home to b, then beats b 3-0; one a-b fixture remains. Points keys are [b, a] and gd keys are [a, b] whatever that fixture's score; if it ends 0-0, both teams have 4 points, b is shown with a's +2 and ranked first | each team's row carries its own goal difference, so a (+2) ranks above b (-2) | not executed | Ranking.MisalignedInEveryTrial | Ranking.TableByKey |
| simulate_league.py:88-92 | the `team` column is taken from the points dict alone, which has no key for a team that has neither won nor drawn, so the columns differ in length and pandas raises ValueError | played match: a beats b 1-0; one a-c fixture remains. Whatever its score, b has no points entry but has a goal difference, so the two columns differ in length in every trial | every team is listed, with 0 points if it earned none | not executed | Ranking.LostOnlyMatchRaisesEveryTrial | Ranking.TableByKey |
| simulate_league.py:75-80 | the feature frame is assigned into the remaining-match frame by row label. The remaining matches keep their labels from the full match list, while the feature rows are labelled 0, 1, 2, ... | one a-b match on matchday 1 and one on matchday 2, start matchday 2: the remaining match has label 1 and the only feature row has label 0, so the fixture is simulated from a blank row (ratings 0, matchday 0) instead of its own (ratings 1000, matchday 2) | fixture j is simulated from feature row j, the row computed for its own match | not executed | MonteCarlo.MisalignedFeatures | MonteCarlo.Fixtures |
