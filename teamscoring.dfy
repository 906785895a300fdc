/** The grouping pass of `getScores` in `LeagueStats/TeamScoring.py`: the
    season's game rows become, per team, the list of its own scores and the
    list of its opponents' scores, and, per week, the list of home scores. */
module TeamScoring {
  import opened Wrappers
  import opened Text

  /** A game score as the schedule scraper gives it: points, or the marker
      (`Box`, `Preview`) of a game without a final score. */
  datatype Score = Pts(value: int) | Marker(text: string)

  /** `week, home, away, homeS, awayS = row`. */
  datatype ScoreRow = ScoreRow(week: string, home: string, away: string, homeS: Score, awayS: Score)

  /** `{'for': [...], 'against': [...]}`. */
  datatype ForAgainst = ForAgainst(pointsFor: seq<Score>, pointsAgainst: seq<Score>)

  // ---------------------------------------------------------------------
  // Reference definitions, row by row
  // ---------------------------------------------------------------------

  /** Every team named in a row, home or away. */
  function Teams(rows: seq<ScoreRow>): set<string>
    decreases |rows|
  {
    if |rows| == 0 then {} else Teams(rows[..|rows| - 1]) + {rows[|rows| - 1].home, rows[|rows| - 1].away}
  }

  /** Every week label of a row. */
  function Weeks(rows: seq<ScoreRow>): set<string>
    decreases |rows|
  {
    if |rows| == 0 then {} else Weeks(rows[..|rows| - 1]) + {rows[|rows| - 1].week}
  }

  /** What one row adds to a team's own scores: its home score if it played at
      home, then its away score if it played away. */
  function RowFor(row: ScoreRow, t: string): seq<Score> {
    (if row.home == t then [row.homeS] else []) + (if row.away == t then [row.awayS] else [])
  }

  /** What one row adds to the scores against a team: the other side's. */
  function RowAgainst(row: ScoreRow, t: string): seq<Score> {
    (if row.home == t then [row.awayS] else []) + (if row.away == t then [row.homeS] else [])
  }

  function ForOf(rows: seq<ScoreRow>, t: string): seq<Score>
    decreases |rows|
  {
    if |rows| == 0 then [] else ForOf(rows[..|rows| - 1], t) + RowFor(rows[|rows| - 1], t)
  }

  function AgainstOf(rows: seq<ScoreRow>, t: string): seq<Score>
    decreases |rows|
  {
    if |rows| == 0 then [] else AgainstOf(rows[..|rows| - 1], t) + RowAgainst(rows[|rows| - 1], t)
  }

  /** How many times a team is named in the rows (twice for a row naming it
      on both sides). */
  function Appearances(rows: seq<ScoreRow>, t: string): nat
    decreases |rows|
  {
    if |rows| == 0 then 0
    else Appearances(rows[..|rows| - 1], t)
         + (if rows[|rows| - 1].home == t then 1 else 0) + (if rows[|rows| - 1].away == t then 1 else 0)
  }

  /** The home scores of a week, in row order. */
  function WeekScores(rows: seq<ScoreRow>, w: string): seq<Score>
    decreases |rows|
  {
    if |rows| == 0 then []
    else WeekScores(rows[..|rows| - 1], w) + (if rows[|rows| - 1].week == w then [rows[|rows| - 1].homeS] else [])
  }

  function WeekRows(rows: seq<ScoreRow>, w: string): nat
    decreases |rows|
  {
    if |rows| == 0 then 0 else WeekRows(rows[..|rows| - 1], w) + (if rows[|rows| - 1].week == w then 1 else 0)
  }

  /** A team not named in any row has no scores either way. */
  lemma {:induction false} AbsentTeam(rows: seq<ScoreRow>, t: string)
    requires t !in Teams(rows)
    ensures ForOf(rows, t) == [] && AgainstOf(rows, t) == []
    decreases |rows|
  {
    if |rows| > 0 {
      AbsentTeam(rows[..|rows| - 1], t);
    }
  }

  lemma {:induction false} AbsentWeek(rows: seq<ScoreRow>, w: string)
    requires w !in Weeks(rows)
    ensures WeekScores(rows, w) == []
    decreases |rows|
  {
    if |rows| > 0 {
      AbsentWeek(rows[..|rows| - 1], w);
    }
  }

  /** Both lists of a team have one entry per appearance: `for` and
      `against` stay the same length. */
  lemma {:induction false} ForAgainstLength(rows: seq<ScoreRow>, t: string)
    ensures |ForOf(rows, t)| == |AgainstOf(rows, t)| == Appearances(rows, t)
    ensures t in Teams(rows) <==> Appearances(rows, t) > 0
    decreases |rows|
  {
    if |rows| > 0 {
      ForAgainstLength(rows[..|rows| - 1], t);
    }
  }

  /** The home scores of a week are as many as the week's rows. */
  lemma {:induction false} WeekScoresLength(rows: seq<ScoreRow>, w: string)
    ensures |WeekScores(rows, w)| == WeekRows(rows, w)
    ensures w in Weeks(rows) <==> WeekRows(rows, w) > 0
    decreases |rows|
  {
    if |rows| > 0 {
      WeekScoresLength(rows[..|rows| - 1], w);
    }
  }

  /** A game between two different teams is written both ways: the home
      score is home's own and away's against, and the other way round. */
  lemma RowMirror(rows: seq<ScoreRow>, row: ScoreRow)
    requires row.home != row.away
    ensures ForOf(rows + [row], row.home) == ForOf(rows, row.home) + [row.homeS]
    ensures AgainstOf(rows + [row], row.away) == AgainstOf(rows, row.away) + [row.homeS]
    ensures ForOf(rows + [row], row.away) == ForOf(rows, row.away) + [row.awayS]
    ensures AgainstOf(rows + [row], row.home) == AgainstOf(rows, row.home) + [row.awayS]
  {
    assert (rows + [row])[..|rows|] == rows;
  }

  /** A row leaves the lists of every team it does not name unchanged. */
  lemma RowFrame(rows: seq<ScoreRow>, row: ScoreRow, t: string)
    requires t != row.home && t != row.away
    ensures ForOf(rows + [row], t) == ForOf(rows, t) && AgainstOf(rows + [row], t) == AgainstOf(rows, t)
  {
    assert (rows + [row])[..|rows|] == rows;
  }

  // ---------------------------------------------------------------------
  // The loop of getScores
  // ---------------------------------------------------------------------

  /** One pass of the loop over `scoreDic`: empty lists for a team on its
      first appearance, then the home team's two appends, then the away
      team's. */
  function AddGame(d: map<string, ForAgainst>, row: ScoreRow): map<string, ForAgainst> {
    var d1 := if row.home !in d then d[row.home := ForAgainst([], [])] else d;
    var d2 := if row.away !in d1 then d1[row.away := ForAgainst([], [])] else d1;
    var home := d2[row.home];
    var d3 := d2[row.home := ForAgainst(home.pointsFor + [row.homeS], home.pointsAgainst + [row.awayS])];
    var away := d3[row.away];
    d3[row.away := ForAgainst(away.pointsFor + [row.awayS], away.pointsAgainst + [row.homeS])]
  }

  /** One pass of the loop over `leagueScoreInfo`. */
  function AddWeek(l: map<string, seq<Score>>, row: ScoreRow): map<string, seq<Score>> {
    var l1 := if row.week !in l then l[row.week := []] else l;
    l1[row.week := l1[row.week] + [row.homeS]]
  }

  function ScoreDic(rows: seq<ScoreRow>): map<string, ForAgainst>
    decreases |rows|
  {
    if |rows| == 0 then map[] else AddGame(ScoreDic(rows[..|rows| - 1]), rows[|rows| - 1])
  }

  function LeagueScores(rows: seq<ScoreRow>): map<string, seq<Score>>
    decreases |rows|
  {
    if |rows| == 0 then map[] else AddWeek(LeagueScores(rows[..|rows| - 1]), rows[|rows| - 1])
  }

  /** A game adds to a team's entry exactly what the row gives it, and
      creates the entry of a team it names. */
  lemma AddGameAt(d: map<string, ForAgainst>, row: ScoreRow, t: string)
    ensures t in AddGame(d, row) <==> t in d || t == row.home || t == row.away
    ensures t in AddGame(d, row) ==>
              var e := if t in d then d[t] else ForAgainst([], []);
              AddGame(d, row)[t] == ForAgainst(e.pointsFor + RowFor(row, t), e.pointsAgainst + RowAgainst(row, t))
  {
    if t == row.home && t == row.away {
      assert RowFor(row, t) == [row.homeS] + [row.awayS] && RowAgainst(row, t) == [row.awayS] + [row.homeS];
    } else if t == row.home {
      assert RowFor(row, t) == [row.homeS] && RowAgainst(row, t) == [row.awayS];
    } else if t == row.away {
      assert RowFor(row, t) == [row.awayS] && RowAgainst(row, t) == [row.homeS];
    } else {
      assert RowFor(row, t) == [] && RowAgainst(row, t) == [];
    }
  }

  /** Every team named in the rows has an entry, and its lists are its own
      scores and its opponents' scores, in row order. */
  lemma {:induction false} ScoreDicSpec(rows: seq<ScoreRow>, t: string)
    ensures t in ScoreDic(rows) <==> t in Teams(rows)
    ensures t in ScoreDic(rows) ==> ScoreDic(rows)[t] == ForAgainst(ForOf(rows, t), AgainstOf(rows, t))
    decreases |rows|
  {
    if |rows| > 0 {
      var init, row := rows[..|rows| - 1], rows[|rows| - 1];
      ScoreDicSpec(init, t);
      AddGameAt(ScoreDic(init), row, t);
      if t !in ScoreDic(init) {
        AbsentTeam(init, t);
      }
    }
  }

  /** Every week of the rows has an entry: its home scores in row order. */
  lemma {:induction false} LeagueScoresSpec(rows: seq<ScoreRow>, w: string)
    ensures w in LeagueScores(rows) <==> w in Weeks(rows)
    ensures w in LeagueScores(rows) ==> LeagueScores(rows)[w] == WeekScores(rows, w)
    decreases |rows|
  {
    if |rows| > 0 {
      var init := rows[..|rows| - 1];
      LeagueScoresSpec(init, w);
      if w !in LeagueScores(init) {
        AbsentWeek(init, w);
      }
    }
  }

  /** The grouping loop: creates empty lists for a team on its first
      appearance, appends both scores to both teams, and appends the home
      score to the week's list. */
  method GetScores(scores: seq<ScoreRow>) returns (scoreDic: map<string, ForAgainst>, leagueScoreInfo: map<string, seq<Score>>)
    ensures scoreDic.Keys == Teams(scores)
    ensures forall t :: t in scoreDic ==> scoreDic[t] == ForAgainst(ForOf(scores, t), AgainstOf(scores, t))
    ensures leagueScoreInfo.Keys == Weeks(scores)
    ensures forall w :: w in leagueScoreInfo ==> leagueScoreInfo[w] == WeekScores(scores, w)
  {
    scoreDic, leagueScoreInfo := map[], map[];
    var i := 0;
    while i < |scores|
      invariant 0 <= i <= |scores|
      invariant scoreDic == ScoreDic(scores[..i])
      invariant leagueScoreInfo == LeagueScores(scores[..i])
    {
      var row := scores[i];
      assert scores[..i + 1][..i] == scores[..i];
      if row.home !in scoreDic {
        scoreDic := scoreDic[row.home := ForAgainst([], [])];
      }
      if row.away !in scoreDic {
        scoreDic := scoreDic[row.away := ForAgainst([], [])];
      }
      var home := scoreDic[row.home];
      scoreDic := scoreDic[row.home := ForAgainst(home.pointsFor + [row.homeS], home.pointsAgainst + [row.awayS])];
      var away := scoreDic[row.away];
      scoreDic := scoreDic[row.away := ForAgainst(away.pointsFor + [row.awayS], away.pointsAgainst + [row.homeS])];
      if row.week !in leagueScoreInfo {
        leagueScoreInfo := leagueScoreInfo[row.week := []];
      }
      leagueScoreInfo := leagueScoreInfo[row.week := leagueScoreInfo[row.week] + [row.homeS]];
      i := i + 1;
    }
    assert scores[..i] == scores;
    forall t ensures t in scoreDic <==> t in Teams(scores) {
      ScoreDicSpec(scores, t);
    }
    forall t | t in scoreDic ensures scoreDic[t] == ForAgainst(ForOf(scores, t), AgainstOf(scores, t)) {
      ScoreDicSpec(scores, t);
    }
    forall w ensures w in leagueScoreInfo <==> w in Weeks(scores) {
      LeagueScoresSpec(scores, w);
    }
    forall w | w in leagueScoreInfo ensures leagueScoreInfo[w] == WeekScores(scores, w) {
      LeagueScoresSpec(scores, w);
    }
  }

  // ---------------------------------------------------------------------
  // Week numbers
  // ---------------------------------------------------------------------

  /** `int(el[el.find(' ') + 1:])`: the number after the first space (the
      whole label when it has none); None where `int` raises. */
  function WeekNumber(el: string): Option<int> {
    var start := match Find(el, " ") case None => 0 case Some(i) => i + 1;
    ParseInt(el[start..])
  }

  /** `'WEEK {0:}'.format(n)`. */
  function WeekLabel(n: nat): string {
    "WEEK " + Decimal(n)
  }

  /** `'ROUND {0:} - PLAYOFFS'.format(n)`. */
  function RoundLabel(n: nat): string {
    "ROUND " + Decimal(n) + " - PLAYOFFS"
  }

  /** A `WEEK n` label gives back n. */
  lemma WeekNumberOfLabel(n: nat)
    ensures WeekNumber(WeekLabel(n)) == Some(n)
  {
    var el := WeekLabel(n);
    forall j | 0 <= j < 4 ensures !OccursAt(el, " ", j) {
      assert el[j..j + 1][0] == "WEEK "[j];
    }
    assert el[4..5] == " ";
    FindFirst(el, " ", 4);
    assert el[5..] == Decimal(n);
    ParseIntDecimal(n);
  }

  /** A playoff label `ROUND n - PLAYOFFS` is not a week: `int` raises on
      the text after its first space. */
  lemma PlayoffLabelNotAWeek(n: nat)
    ensures WeekNumber(RoundLabel(n)) == None
  {
    RoundLabelFirstSpace(n);
    DigitsThenSpaceNotInt(Decimal(n), " - PLAYOFFS");
  }

  lemma RoundLabelFirstSpace(n: nat)
    ensures Find(RoundLabel(n), " ") == Some(5)
    ensures RoundLabel(n)[6..] == Decimal(n) + " - PLAYOFFS"
  {
    var el := RoundLabel(n);
    forall j | 0 <= j < 5 ensures !OccursAt(el, " ", j) {
      assert el[j..j + 1][0] == "ROUND "[j];
    }
    assert el[5..6] == " ";
    FindFirst(el, " ", 5);
  }

  /** Digits followed by a space and more text do not parse as an integer. */
  lemma DigitsThenSpaceNotInt(d: string, rest: string)
    requires |d| >= 1 && AllDigits(d)
    requires |rest| >= 2 && rest[0] == ' ' && !IsSpace(rest[|rest| - 1])
    ensures ParseInt(d + rest) == None
  {
    var t := d + rest;
    assert t[0] == d[0] && IsDigit(d[0]) && !IsSpace(t[0]);
    assert !IsSpace(t[|t| - 1]);
    assert Strip(t) == t;
    assert t[|d|] == ' ' && !IsDigit(t[|d|]);
  }
}
