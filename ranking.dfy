/**
 * The league table of one simulated season: a row per team with its points and
 * goal difference, ordered by points and then goal difference, both
 * descending, with ties left in table order.
 */
module Ranking {
  import opened Dicts
  import opened FeatureEngineering
  import opened Outcome
  import opened Season

  datatype Row = Row(team: Team, pts: int, gd: int)

  // ---------------------------------------------------------------------------
  // Building the table

  /** `[d[t] for t in ks]`, reading a missing team as 0. */
  function Column(ks: seq<Team>, d: Dict<Team, int>): (c: seq<int>)
    ensures |c| == |ks|
  {
    if ks == [] then [] else Column(ks[..|ks| - 1], d) + [d.Get(ks[|ks| - 1], 0)]
  }

  lemma {:induction false} ColumnAt(ks: seq<Team>, d: Dict<Team, int>, i: nat)
    requires i < |ks|
    ensures Column(ks, d)[i] == d.Get(ks[i], 0)
  {
    if i < |ks| - 1 {
      ColumnAt(ks[..|ks| - 1], d, i);
    }
  }

  /** Three equally long columns, read row by row. */
  function Zip(teams: seq<Team>, pts: seq<int>, gds: seq<int>): (rows: seq<Row>)
    requires |teams| == |pts| == |gds|
    ensures |rows| == |teams|
  {
    if teams == [] then []
    else
      var n := |teams| - 1;
      Zip(teams[..n], pts[..n], gds[..n]) + [Row(teams[n], pts[n], gds[n])]
  }

  lemma {:induction false} ZipAt(teams: seq<Team>, pts: seq<int>, gds: seq<int>, i: nat)
    requires |teams| == |pts| == |gds|
    requires i < |teams|
    ensures Zip(teams, pts, gds)[i] == Row(teams[i], pts[i], gds[i])
  {
    var n := |teams| - 1;
    if i < n {
      ZipAt(teams[..n], pts[..n], gds[..n], i);
    }
  }

  /**
   * The table as the engine builds it: the team column is the points table's
   * keys, the points column reads each of them, and the goal-difference column
   * is the goal-difference table's values in that table's own key order. Columns
   * of different lengths make the frame constructor raise.
   */
  function TableAsWritten(pts: Dict<Team, int>, gds: Dict<Team, int>): (r: Result<seq<Row>>)
  {
    if |pts.keys| != |gds.keys| then Err("All arrays must be of the same length")
    else Ok(Zip(pts.keys, Column(pts.keys, pts), Column(gds.keys, gds)))
  }

  /**
   * Row `i` of the as-written table pairs the `i`-th team of the points table
   * with its points and with the `i`-th goal-difference entry, whichever team
   * that entry belongs to; the table fails exactly when the two tables have
   * different numbers of teams.
   */
  lemma TableAsWrittenRows(pts: Dict<Team, int>, gds: Dict<Team, int>)
    ensures TableAsWritten(pts, gds).Ok? <==> |pts.keys| == |gds.keys|
    ensures var r := TableAsWritten(pts, gds);
            r.Ok? ==> (|r.value| == |pts.keys| &&
              forall i :: 0 <= i < |r.value| ==>
                r.value[i] == Row(pts.keys[i], pts.Get(pts.keys[i], 0), gds.Get(gds.keys[i], 0)))
  {
    var r := TableAsWritten(pts, gds);
    if r.Ok? {
      forall i | 0 <= i < |r.value|
        ensures r.value[i] == Row(pts.keys[i], pts.Get(pts.keys[i], 0), gds.Get(gds.keys[i], 0))
      {
        ZipAt(pts.keys, Column(pts.keys, pts), Column(gds.keys, gds), i);
        ColumnAt(pts.keys, pts, i);
        ColumnAt(gds.keys, gds, i);
      }
    }
  }

  /** The teams of `ks` that have no entry in `d`, in order. */
  function Missing(ks: seq<Team>, d: Dict<Team, int>): (r: seq<Team>)
    ensures forall t :: t in r <==> t in ks && t !in d.vals
  {
    if ks == [] then []
    else
      var t := ks[|ks| - 1];
      Missing(ks[..|ks| - 1], d) + (if t in d.vals then [] else [t])
  }

  /** The teams of the intended table: the points table's teams, then those that only have a goal difference. */
  function TableTeams(pts: Dict<Team, int>, gds: Dict<Team, int>): seq<Team> {
    pts.keys + Missing(gds.keys, pts)
  }

  /**
   * The intended table: every team of either dictionary gets one row with its
   * own points (0 if it has none) and its own goal difference.
   */
  function TableByKey(pts: Dict<Team, int>, gds: Dict<Team, int>): (rows: seq<Row>)
    ensures |rows| == |TableTeams(pts, gds)|
  {
    var teams := TableTeams(pts, gds);
    Zip(teams, Column(teams, pts), Column(teams, gds))
  }

  /**
   * Row `i` of the intended table is the `i`-th of its teams with that team's
   * own points and own goal difference, and its teams are exactly those of the
   * two dictionaries.
   */
  lemma TableByKeyRows(pts: Dict<Team, int>, gds: Dict<Team, int>)
    requires pts.Valid() && gds.Valid()
    ensures var ts := TableTeams(pts, gds);
            var rows := TableByKey(pts, gds);
            forall i :: 0 <= i < |rows| ==> rows[i] == Row(ts[i], pts.Get(ts[i], 0), gds.Get(ts[i], 0))
    ensures forall t :: t in TableTeams(pts, gds) <==> t in pts.vals || t in gds.vals
  {
    var ts := TableTeams(pts, gds);
    var rows := TableByKey(pts, gds);
    forall i | 0 <= i < |rows|
      ensures rows[i] == Row(ts[i], pts.Get(ts[i], 0), gds.Get(ts[i], 0))
    {
      ZipAt(ts, Column(ts, pts), Column(ts, gds), i);
      ColumnAt(ts, pts, i);
      ColumnAt(ts, gds, i);
    }
  }

  /** The two tables agree whenever both dictionaries list the same teams in the same order. */
  lemma AsWrittenWhenAligned(pts: Dict<Team, int>, gds: Dict<Team, int>)
    requires pts.Valid() && gds.Valid()
    requires pts.keys == gds.keys
    ensures TableAsWritten(pts, gds) == Ok(TableByKey(pts, gds))
  {
    MissingNone(gds.keys, pts);
    var teams := TableTeams(pts, gds);
    assert Missing(gds.keys, pts) == [];
    assert teams == pts.keys + Missing(gds.keys, pts);
    assert teams == pts.keys;
    assert TableByKey(pts, gds) == Zip(pts.keys, Column(pts.keys, pts), Column(gds.keys, gds));
  }

  lemma {:induction false} MissingNone(ks: seq<Team>, d: Dict<Team, int>)
    requires forall t :: t in ks ==> t in d.vals
    ensures Missing(ks, d) == []
  {
    if ks != [] {
      MissingNone(ks[..|ks| - 1], d);
    }
  }

  // ---------------------------------------------------------------------------
  // Ordering

  /** `x` sorts strictly before `y`: more points, or as many points and a better goal difference. */
  predicate Above(x: Row, y: Row) {
    x.pts > y.pts || (x.pts == y.pts && x.gd > y.gd)
  }

  predicate SameKey(x: Row, y: Row) {
    x.pts == y.pts && x.gd == y.gd
  }

  /** No row sorts strictly before a row that comes earlier. */
  ghost predicate Sorted(s: seq<Row>) {
    forall i, j :: 0 <= i < j < |s| ==> !Above(s[j], s[i])
  }

  /** Puts `x` after every row that does not sort strictly below it. */
  function Insert(x: Row, s: seq<Row>): (r: seq<Row>)
    ensures |r| == |s| + 1
  {
    if s == [] then [x]
    else if Above(x, s[0]) then [x] + s
    else [s[0]] + Insert(x, s[1..])
  }

  /** `sort_values(["pts", "gd"], ascending=False)`: a stable sort, descending on both keys. */
  function Rank(rows: seq<Row>): (r: seq<Row>)
    ensures |r| == |rows|
  {
    if rows == [] then [] else Insert(rows[|rows| - 1], Rank(rows[..|rows| - 1]))
  }

  /** The rows of `s` that tie with `y`, in order. */
  function Ties(s: seq<Row>, y: Row): seq<Row> {
    if s == [] then [] else (if SameKey(s[0], y) then [s[0]] else []) + Ties(s[1..], y)
  }

  lemma {:induction false} InsertPermutes(x: Row, s: seq<Row>)
    ensures multiset(Insert(x, s)) == multiset(s) + multiset{x}
  {
    if s != [] && !Above(x, s[0]) {
      InsertPermutes(x, s[1..]);
      assert s == [s[0]] + s[1..];
    }
  }

  lemma {:induction false} InsertSorted(x: Row, s: seq<Row>)
    requires Sorted(s)
    ensures Sorted(Insert(x, s))
  {
    if s != [] && !Above(x, s[0]) {
      var rest := Insert(x, s[1..]);
      InsertSorted(x, s[1..]);
      InsertPermutes(x, s[1..]);
      var r := Insert(x, s);
      assert r == [s[0]] + rest;
      forall i, j | 0 <= i < j < |r|
        ensures !Above(r[j], r[i])
      {
        if i == 0 {
          assert r[j] in multiset(s[1..]) + multiset{x} by {
            assert r[j] == rest[j - 1];
          }
        } else {
          assert r[i] == rest[i - 1] && r[j] == rest[j - 1];
        }
      }
    }
  }

  /** The table comes out ordered, and it holds exactly the rows it was given. */
  lemma {:induction false} RankSorted(rows: seq<Row>)
    ensures Sorted(Rank(rows))
    ensures multiset(Rank(rows)) == multiset(rows)
  {
    if rows != [] {
      var init, last := rows[..|rows| - 1], rows[|rows| - 1];
      RankSorted(init);
      assert Rank(rows) == Insert(last, Rank(init));
      InsertSorted(last, Rank(init));
      InsertPermutes(last, Rank(init));
      assert rows == init + [last];
      assert multiset(rows) == multiset(init) + multiset{last};
    }
  }

  /** Every row of a sorted run that starts strictly below `x` lies strictly below `x`. */
  lemma {:induction false} AllBelow(x: Row, s: seq<Row>)
    requires Sorted(s) && s != [] && Above(x, s[0])
    ensures Ties(s, x) == []
  {
    if |s| > 1 {
      assert !Above(s[1], s[0]);
      AllBelow(x, s[1..]);
    }
  }

  lemma {:induction false} TiesAppend(a: seq<Row>, b: seq<Row>, y: Row)
    ensures Ties(a + b, y) == Ties(a, y) + Ties(b, y)
  {
    if a != [] {
      assert (a + b)[1..] == a[1..] + b;
      TiesAppend(a[1..], b, y);
    } else {
      assert a + b == b;
    }
  }

  lemma {:induction false} InsertTies(x: Row, s: seq<Row>, y: Row)
    requires Sorted(s)
    ensures Ties(Insert(x, s), y) == Ties(s, y) + (if SameKey(x, y) then [x] else [])
  {
    if s == [] {
    } else if Above(x, s[0]) {
      if SameKey(x, y) {
        assert Ties(s, y) == Ties(s, x) by {
          TiesSameKey(s, x, y);
        }
        AllBelow(x, s);
      }
    } else {
      InsertTies(x, s[1..], y);
    }
  }

  lemma {:induction false} TiesSameKey(s: seq<Row>, x: Row, y: Row)
    requires SameKey(x, y)
    ensures Ties(s, x) == Ties(s, y)
  {
    if s != [] {
      TiesSameKey(s[1..], x, y);
    }
  }

  /** Ranking is stable: the rows sharing one points-and-goal-difference key keep their table order. */
  lemma {:induction false} RankStable(rows: seq<Row>, y: Row)
    ensures Ties(Rank(rows), y) == Ties(rows, y)
  {
    if rows != [] {
      var init := rows[..|rows| - 1];
      var last := rows[|rows| - 1];
      var here := if SameKey(last, y) then [last] else [];
      calc {
        Ties(Rank(rows), y);
      == { assert Rank(rows) == Insert(last, Rank(init));
           RankSorted(init);
           InsertTies(last, Rank(init), y); }
        Ties(Rank(init), y) + here;
      == { RankStable(init, y); }
        Ties(init, y) + here;
      == { TiesAppend(init, [last], y);
           assert [last][1..] == []; }
        Ties(init + [last], y);
      == { assert init + [last] == rows; }
        Ties(rows, y);
      }
    }
  }

  /** A row with more points, or as many points and a better goal difference, is ranked higher. */
  lemma RankOrder(rows: seq<Row>, i: nat, j: nat)
    requires i < |rows| && j < |rows|
    requires Above(Rank(rows)[i], Rank(rows)[j])
    ensures i < j
  {
    RankSorted(rows);
    SortedOrder(Rank(rows), i, j);
  }

  lemma SortedOrder(s: seq<Row>, i: nat, j: nat)
    requires Sorted(s) && i < |s| && j < |s|
    requires Above(s[i], s[j])
    ensures i < j
  {
  }

  /** `table["team"]`: the teams of a ranked table, top first; position `p` is index `p - 1`. */
  function Teams(rows: seq<Row>): (ts: seq<Team>)
    ensures |ts| == |rows|
    ensures forall i :: 0 <= i < |rows| ==> ts[i] == rows[i].team
  {
    if rows == [] then [] else Teams(rows[..|rows| - 1]) + [rows[|rows| - 1].team]
  }

  lemma TeamsAppend(a: seq<Row>, b: seq<Row>)
    ensures Teams(a + b) == Teams(a) + Teams(b)
  {
    assert forall i :: 0 <= i < |a + b| ==> Teams(a + b)[i] == (Teams(a) + Teams(b))[i];
  }

  lemma TeamsCons(a: Row, s: seq<Row>)
    ensures multiset(Teams([a] + s)) == multiset{a.team} + multiset(Teams(s))
  {
    TeamsAppend([a], s);
    assert Teams([a]) == [a.team];
  }

  lemma {:induction false} InsertTeams(x: Row, s: seq<Row>, t: Team)
    ensures multiset(Teams(Insert(x, s)))[t] == multiset(Teams(s))[t] + (if x.team == t then 1 else 0)
  {
    if s == [] {
      assert Teams(Insert(x, s)) == [x.team];
    } else if Above(x, s[0]) {
      TeamsCons(x, s);
    } else {
      InsertTeams(x, s[1..], t);
      assert Insert(x, s) == [s[0]] + Insert(x, s[1..]);
      TeamsCons(s[0], Insert(x, s[1..]));
      TeamsSplit(s);
    }
  }

  lemma TeamsSplit(s: seq<Row>)
    requires s != []
    ensures multiset(Teams(s)) == multiset{s[0].team} + multiset(Teams(s[1..]))
  {
    assert s == [s[0]] + s[1..];
    TeamsCons(s[0], s[1..]);
  }

  /** Ranking reorders the table without adding, losing or repeating a team. */
  lemma {:induction false} RankTeams(rows: seq<Row>, t: Team)
    ensures multiset(Teams(Rank(rows)))[t] == multiset(Teams(rows))[t]
  {
    if rows != [] {
      var init := rows[..|rows| - 1];
      RankTeams(init, t);
      InsertTeams(rows[|rows| - 1], Rank(init), t);
      assert Teams(rows) == Teams(init) + [rows[|rows| - 1].team];
    }
  }

  /** The team column of the intended table lists its teams in order. */
  lemma TableByKeyTeams(pts: Dict<Team, int>, gds: Dict<Team, int>)
    requires pts.Valid() && gds.Valid()
    ensures Teams(TableByKey(pts, gds)) == TableTeams(pts, gds)
  {
    TableByKeyRows(pts, gds);
  }

  /** Every team of either dictionary is listed exactly once in the intended table, and no other team is. */
  lemma TableTeamsOnce(pts: Dict<Team, int>, gds: Dict<Team, int>, t: Team)
    requires pts.Valid() && gds.Valid()
    ensures multiset(TableTeams(pts, gds))[t] == if t in pts.vals || t in gds.vals then 1 else 0
  {
    NoDupCount(pts.keys, t);
    MissingCount(gds.keys, pts, t);
  }

  lemma {:induction false} MissingCount(ks: seq<Team>, d: Dict<Team, int>, t: Team)
    requires NoDup(ks)
    ensures multiset(Missing(ks, d))[t] == if t in ks && t !in d.vals then 1 else 0
  {
    if ks != [] {
      var init := ks[..|ks| - 1];
      var last := ks[|ks| - 1];
      MissingCount(init, d, t);
      var m := Missing(init, d);
      if last in d.vals {
        assert Missing(ks, d) == m;
      } else {
        assert Missing(ks, d) == m + [last];
        assert multiset(Missing(ks, d))[t] == multiset(m)[t] + (if t == last then 1 else 0);
      }
      InLast(ks, t);
    }
  }

  // ---------------------------------------------------------------------------
  // The goal-difference column of the as-written table

  /**
   * Two matches between `a` and `b`: `b` wins the first 1-0 away, `a` wins the
   * second 3-0 at home. Both end on 3 points, `a` with goal difference +2 and
   * `b` with -2, but the points table lists `b` first while the
   * goal-difference table lists `a` first, so the as-written table hands `a`'s
   * goal difference to `b`, and `b` is ranked top.
   */
  lemma MisalignedGoalDifference(a: Team, b: Team)
    requires a != b
    ensures var st := Tally(NoStandings(), [Match(1, a, b, 0, 1), Match(2, a, b, 3, 0)]);
            && st.points.Get(a, 0) == 3 && st.points.Get(b, 0) == 3
            && st.gd.Get(a, 0) == 2 && st.gd.Get(b, 0) == -2
            && TableAsWritten(st.points, st.gd) == Ok([Row(b, 3, 2), Row(a, 3, -2)])
            && Teams(Rank([Row(b, 3, 2), Row(a, 3, -2)])) == [b, a]
            && TableByKey(st.points, st.gd) == [Row(b, 3, -2), Row(a, 3, 2)]
            && Teams(Rank(TableByKey(st.points, st.gd))) == [a, b]
  {
    var st := TwoMatchBaseline(a, b);
    TablesLevelOnPoints(st, a, b, 3);
  }

  /**
   * The same two teams then meet once more in a remaining fixture. Whatever the
   * score, both already have a points entry and a goal-difference entry, so
   * the two key orders stay [b, a] and [a, b]: in every trial the as-written
   * table gives each team the other's goal difference, and after a draw it
   * ranks `b` (4 points, shown +2) above `a` (4 points, really +2).
   */
  lemma MisalignedInEveryTrial(a: Team, b: Team, hg: int, ag: int)
    requires a != b
    ensures var played := Tally(NoStandings(), [Match(1, a, b, 0, 1), Match(2, a, b, 3, 0)]);
            var st := Tally(played, [Match(3, a, b, hg, ag)]);
            && st.points.keys == [b, a] && st.gd.keys == [a, b]
            && st.gd.Get(a, 0) == 2 + (hg - ag) && st.gd.Get(b, 0) == -2 - (hg - ag)
            && TableAsWritten(st.points, st.gd)
               == Ok([Row(b, st.points.Get(b, 0), st.gd.Get(a, 0)), Row(a, st.points.Get(a, 0), st.gd.Get(b, 0))])
    ensures var played := Tally(NoStandings(), [Match(1, a, b, 0, 1), Match(2, a, b, 3, 0)]);
            var st := Tally(played, [Match(3, a, b, 0, 0)]);
            && TableAsWritten(st.points, st.gd) == Ok([Row(b, 4, 2), Row(a, 4, -2)])
            && Teams(Rank([Row(b, 4, 2), Row(a, 4, -2)])) == [b, a]
            && Teams(Rank(TableByKey(st.points, st.gd))) == [a, b]
  {
    var played := TwoMatchBaseline(a, b);
    ThirdMeeting(played, a, b, hg, ag);
    ThirdMeeting(played, a, b, 0, 0);
    var st := Tally(played, [Match(3, a, b, 0, 0)]);
    assert CalculatePoints(0, 0) == (1, 1);
    TablesLevelOnPoints(st, a, b, 4);
  }

  /** Both tables once `a` and `b` are level on points, `a` at +2 and `b` at -2. */
  lemma TablesLevelOnPoints(st: Standings, a: Team, b: Team, p: int)
    requires a != b && 0 < p
    requires st.points.keys == [b, a] && st.gd.keys == [a, b]
    requires st.points.Get(a, 0) == p && st.points.Get(b, 0) == p
    requires st.gd.Get(a, 0) == 2 && st.gd.Get(b, 0) == -2
    ensures TableAsWritten(st.points, st.gd) == Ok([Row(b, p, 2), Row(a, p, -2)])
    ensures Teams(Rank([Row(b, p, 2), Row(a, p, -2)])) == [b, a]
    ensures TableByKey(st.points, st.gd) == [Row(b, p, -2), Row(a, p, 2)]
    ensures Teams(Rank(TableByKey(st.points, st.gd))) == [a, b]
  {
    AsWrittenOfTwo(st.points, st.gd);
    MissingNone(st.gd.keys, st.points);
    assert TableTeams(st.points, st.gd) == [b, a] + [];
    ByKeyOfTwo(st.points, st.gd);
    RankPair(Row(b, p, 2), Row(a, p, -2));
    RankPair(Row(b, p, -2), Row(a, p, 2));
    var asWritten := Rank([Row(b, p, 2), Row(a, p, -2)]);
    assert asWritten == [Row(b, p, 2), Row(a, p, -2)];
    assert Teams(asWritten) == [b, a];
    var byKey := Rank([Row(b, p, -2), Row(a, p, 2)]);
    assert byKey == [Row(a, p, 2), Row(b, p, -2)];
    assert Teams(byKey) == [a, b];
  }

  /** A third meeting of `a` and `b` after the two-match baseline. */
  lemma ThirdMeeting(played: Standings, a: Team, b: Team, hg: int, ag: int)
    requires a != b
    requires played.points.keys == [b, a] && played.gd.keys == [a, b]
    requires played.points.Get(a, 0) == 3 && played.points.Get(b, 0) == 3
    requires played.gd.Get(a, 0) == 2 && played.gd.Get(b, 0) == -2
    ensures var st := Tally(played, [Match(3, a, b, hg, ag)]);
            && st.points.keys == [b, a] && st.gd.keys == [a, b]
            && st.gd.Get(a, 0) == 2 + (hg - ag) && st.gd.Get(b, 0) == -2 - (hg - ag)
            && st.points.Get(a, 0) == 3 + CalculatePoints(hg, ag).0
            && st.points.Get(b, 0) == 3 + CalculatePoints(hg, ag).1
            && TableAsWritten(st.points, st.gd)
               == Ok([Row(b, st.points.Get(b, 0), st.gd.Get(a, 0)), Row(a, st.points.Get(a, 0), st.gd.Get(b, 0))])
  {
    var m := Match(3, a, b, hg, ag);
    AwardPointsRule(played.points, m);
    TallyOne(played, m);
    ResultKeepsKeys(played, m);
    GoalDifferenceRule(played.gd, m);
    var st := ApplyResult(played, m);
    AsWrittenOfTwo(st.points, st.gd);
  }

  /** A result between two teams that both already have both entries leaves both key orders as they were. */
  lemma ResultKeepsKeys(st: Standings, m: Match)
    requires m.homeTeam in st.points.vals && m.awayTeam in st.points.vals
    requires m.homeTeam in st.gd.vals && m.awayTeam in st.gd.vals
    ensures ApplyResult(st, m).points.keys == st.points.keys
    ensures ApplyResult(st, m).gd.keys == st.gd.keys
  {
    var p, g := st.points, st.gd;
    AwardPointsOfScores(p, m.matchday, m.homeTeam, m.awayTeam, m.homeScore, m.awayScore);
    GoalDifferenceOfScores(g, m.matchday, m.homeTeam, m.awayTeam, m.homeScore, m.awayScore);
    AddEntries(p, m.homeTeam, 3);
    AddEntries(p, m.awayTeam, 3);
    AddEntries(p, m.homeTeam, 1);
    AddEntries(Add(p, m.homeTeam, 1), m.awayTeam, 1);
    AddEntries(g, m.homeTeam, m.homeScore - m.awayScore);
    AddEntries(Add(g, m.homeTeam, m.homeScore - m.awayScore), m.awayTeam, m.awayScore - m.homeScore);
  }

  /** The as-written table of two dictionaries with two teams each. */
  lemma AsWrittenOfTwo(pts: Dict<Team, int>, gds: Dict<Team, int>)
    requires |pts.keys| == 2 && |gds.keys| == 2
    ensures TableAsWritten(pts, gds)
            == Ok([Row(pts.keys[0], pts.Get(pts.keys[0], 0), gds.Get(gds.keys[0], 0)),
                   Row(pts.keys[1], pts.Get(pts.keys[1], 0), gds.Get(gds.keys[1], 0))])
  {
    TableAsWrittenRows(pts, gds);
    var rows := TableAsWritten(pts, gds).value;
    assert rows == [rows[0], rows[1]];
  }

  /** The intended table when it has two teams. */
  lemma ByKeyOfTwo(pts: Dict<Team, int>, gds: Dict<Team, int>)
    requires |TableTeams(pts, gds)| == 2
    ensures var ts := TableTeams(pts, gds);
            TableByKey(pts, gds)
            == [Row(ts[0], pts.Get(ts[0], 0), gds.Get(ts[0], 0)), Row(ts[1], pts.Get(ts[1], 0), gds.Get(ts[1], 0))]
  {
    var ts := TableTeams(pts, gds);
    var rows := TableByKey(pts, gds);
    ZipAt(ts, Column(ts, pts), Column(ts, gds), 0);
    ZipAt(ts, Column(ts, pts), Column(ts, gds), 1);
    ColumnAt(ts, pts, 0);
    ColumnAt(ts, pts, 1);
    ColumnAt(ts, gds, 0);
    ColumnAt(ts, gds, 1);
    assert rows == [rows[0], rows[1]];
  }

  /** The baseline after `a` loses 0-1 and then wins 3-0 at home against `b`. */
  lemma TwoMatchBaseline(a: Team, b: Team) returns (st: Standings)
    requires a != b
    ensures st == Tally(NoStandings(), [Match(1, a, b, 0, 1), Match(2, a, b, 3, 0)])
    ensures st.points.keys == [b, a] && st.gd.keys == [a, b]
    ensures st.points.Get(a, 0) == 3 && st.points.Get(b, 0) == 3
    ensures st.gd.Get(a, 0) == 2 && st.gd.Get(b, 0) == -2
  {
    var m1, m2 := Match(1, a, b, 0, 1), Match(2, a, b, 3, 0);
    TallyTwo(NoStandings(), m1, m2);
    var p0, g0 := NoStandings().points, NoStandings().gd;

    AwardPointsOfScores(p0, 1, a, b, 0, 1);
    var p1 := Add(p0, b, 3);
    AddEntries(p0, b, 3);
    AwardPointsOfScores(p1, 2, a, b, 3, 0);
    var p2 := Add(p1, a, 3);
    AddEntries(p1, a, 3);

    GoalDifferenceOfScores(g0, 1, a, b, 0, 1);
    var g1 := Add(g0, a, -1);
    AddEntries(g0, a, -1);
    var g2 := Add(g1, b, 1);
    AddEntries(g1, b, 1);
    GoalDifferenceOfScores(g2, 2, a, b, 3, 0);
    var g3 := Add(g2, a, 3);
    AddEntries(g2, a, 3);
    var g4 := Add(g3, b, -3);
    AddEntries(g3, b, -3);

    st := Standings(p2, g4);
  }

  /** Two results applied in turn. */
  lemma TallyTwo(st: Standings, m1: Match, m2: Match)
    ensures Tally(st, [m1, m2]) == ApplyResult(ApplyResult(st, m1), m2)
  {
    assert [m1, m2][..1] == [m1];
    TallyOne(st, m1);
  }

  /** One result applied. */
  lemma TallyOne(st: Standings, m: Match)
    ensures Tally(st, [m]) == ApplyResult(st, m)
  {
    assert [m][..0] == [];
  }

  lemma LostOnlyMatchRaises(a: Team, b: Team)
    requires a != b
    ensures var st := Tally(NoStandings(), [Match(1, a, b, 1, 0)]);
            && TableAsWritten(st.points, st.gd).Err?
            && TableByKey(st.points, st.gd) == [Row(a, 3, 1), Row(b, 0, -1)]
            && Teams(Rank(TableByKey(st.points, st.gd))) == [a, b]
  {
    var st := OneMatchBaseline(a, b);
    assert Missing([a], st.points) == [] by {
      assert [a][..0] == [];
    }
    assert Missing([a, b], st.points) == [b] by {
      assert [a, b][..1] == [a];
    }
    assert TableTeams(st.points, st.gd) == [a, b];
    ByKeyOfTwo(st.points, st.gd);
    RankPair(Row(a, 3, 1), Row(b, 0, -1));
  }

  /**
   * `b` lost its only played match and the remaining fixture is `a` against a
   * third team `c`. Whatever its score, `b` never gets a points entry while it
   * has a goal difference, so the columns differ in length and the as-written
   * table raises in every trial.
   */
  lemma LostOnlyMatchRaisesEveryTrial(a: Team, b: Team, c: Team, hg: int, ag: int)
    requires a != b && b != c && a != c
    ensures var st := Tally(Tally(NoStandings(), [Match(1, a, b, 1, 0)]), [Match(2, a, c, hg, ag)]);
            && b !in st.points.vals && b in st.gd.vals
            && TableAsWritten(st.points, st.gd).Err?
  {
    var played := OneMatchBaseline(a, b);
    var m := Match(2, a, c, hg, ag);
    TallyOne(played, m);
    var p, g := played.points, played.gd;
    AwardPointsOfScores(p, 2, a, c, hg, ag);
    GoalDifferenceOfScores(g, 2, a, c, hg, ag);
    AddEntries(p, a, 3);
    AddEntries(p, c, 3);
    AddEntries(p, a, 1);
    AddEntries(Add(p, a, 1), c, 1);
    AddEntries(g, a, hg - ag);
    AddEntries(Add(g, a, hg - ag), c, ag - hg);
    var st := ApplyResult(played, m);
    assert |st.points.keys| <= 2 && |st.gd.keys| == 3;
    TableAsWrittenRows(st.points, st.gd);
  }

  /** The baseline after `a` beats `b` 1-0 at home. */
  lemma OneMatchBaseline(a: Team, b: Team) returns (st: Standings)
    requires a != b
    ensures st == Tally(NoStandings(), [Match(1, a, b, 1, 0)])
    ensures st.points.keys == [a] && st.gd.keys == [a, b]
    ensures st.points.vals == map[a := 3]
    ensures st.gd.Get(a, 0) == 1 && st.gd.Get(b, 0) == -1
  {
    TallyOne(NoStandings(), Match(1, a, b, 1, 0));
    var p0, g0 := NoStandings().points, NoStandings().gd;
    AwardPointsOfScores(p0, 1, a, b, 1, 0);
    GoalDifferenceOfScores(g0, 1, a, b, 1, 0);
    st := Standings(Add(p0, a, 3), Add(Add(g0, a, 1), b, -1));
    FirstEntry(p0, a, 3);
    SecondEntry(g0, a, 1, b, -1);
  }

  lemma FirstEntry(d: Dict<Team, int>, a: Team, x: int)
    requires d.keys == [] && d.vals == map[]
    ensures Add(d, a, x).keys == [a] && Add(d, a, x).vals == map[a := x]
  {
    AddEntries(d, a, x);
  }

  lemma SecondEntry(d: Dict<Team, int>, a: Team, x: int, b: Team, y: int)
    requires d.keys == [] && d.vals == map[] && a != b
    ensures Add(Add(d, a, x), b, y).keys == [a, b]
    ensures Add(Add(d, a, x), b, y).Get(a, 0) == x && Add(Add(d, a, x), b, y).Get(b, 0) == y
  {
    FirstEntry(d, a, x);
    AddEntries(Add(d, a, x), b, y);
  }

  /** Ranking two rows: the second goes first exactly when it sorts strictly above the first. */
  lemma RankPair(x: Row, y: Row)
    ensures Rank([x, y]) == if Above(y, x) then [y, x] else [x, y]
  {
    assert [x][..0] == [];
    assert Rank([x]) == [x];
    assert [x, y][..1] == [x];
    assert Rank([x, y]) == Insert(y, [x]);
    assert [x][1..] == [];
    assert Insert(y, []) == [y];
  }
}
