/** The league table of `LeagueStats/statgrab.py`: the CSV column names, the
    per-team records that `update_basics` creates, the game columns that
    `update_scores` writes into them, and the row order of `write_to_csv`. */
module StatGrab {
  import opened Wrappers
  import opened Text
  import opened TeamScoring

  // ---------------------------------------------------------------------
  // Column names
  // ---------------------------------------------------------------------

  /** Regular-season weeks and playoff rounds. */
  const W: nat := 14
  const P: nat := 3

  const StandingsHeaders: seq<string> := ["WINS", "LOSSES", "TIES", "PF", "PA"]
  const ScoreSuffixes: seq<string> := [" OP", " PTS FOR", " PTS AGAINST"]
  const Positions: seq<string> := ["QB", "RB", "RB/WR", "WR", "WR/TE", "TE", "D/ST", "K", "P"]
  const IdentityHeaders: seq<string> := ["TEAM NAME", "TEAM ABB", "TEAM ID", "OWNER"]

  /** The period labels the headers run over: weeks 1..W, then rounds 1..P. */
  function Periods(): (r: seq<string>)
    ensures |r| == W + P
    ensures forall k :: 0 <= k < W ==> r[k] == WeekLabel(k + 1)
    ensures forall k :: W <= k < W + P ==> r[k] == RoundLabel(k - W + 1)
  {
    seq(W, k requires 0 <= k < W => WeekLabel(k + 1)) + seq(P, k requires 0 <= k < P => RoundLabel(k + 1))
  }

  /** One period label followed by each suffix. */
  function Suffixed(p: string, xs: seq<string>): (r: seq<string>)
    ensures |r| == |xs| && forall j :: 0 <= j < |xs| ==> r[j] == p + xs[j]
  {
    seq(|xs|, j requires 0 <= j < |xs| => p + xs[j])
  }

  /** `[x.format(p) for p in periods for x in suffixes]`: periods outer,
      suffixes inner. */
  function Product(ps: seq<string>, xs: seq<string>): seq<string>
    decreases |ps|
  {
    if ps == [] then [] else Product(ps[..|ps| - 1], xs) + Suffixed(ps[|ps| - 1], xs)
  }

  /** `' ' + pos` for each of the positions. */
  function PositionSuffixes(): (r: seq<string>)
    ensures |r| == |Positions| && forall j :: 0 <= j < |Positions| ==> r[j] == " " + Positions[j]
  {
    seq(|Positions|, j requires 0 <= j < |Positions| => " " + Positions[j])
  }

  function ScoreHeaders(): seq<string> {
    Product(Periods(), ScoreSuffixes)
  }

  function StartersHeaders(): seq<string> {
    Product(Periods(), PositionSuffixes())
  }

  function CsvHeaders(): seq<string> {
    IdentityHeaders + StandingsHeaders + ScoreHeaders() + StartersHeaders()
  }

  lemma MulStep(n: nat, m: nat)
    requires n > 0
    ensures (n - 1) * m + m == n * m
  {
  }

  lemma MulBelow(k: nat, j: nat, n: nat, m: nat)
    requires k < n && j < m
    ensures k * m + j < n * m
  {
    assert k * m + j < (k + 1) * m;
    assert (k + 1) * m <= n * m;
  }

  /** Every period contributes one entry per suffix. */
  lemma {:induction false} ProductLength(ps: seq<string>, xs: seq<string>)
    ensures |Product(ps, xs)| == |ps| * |xs|
    decreases |ps|
  {
    if ps != [] {
      ProductLength(ps[..|ps| - 1], xs);
      MulStep(|ps|, |xs|);
    }
  }

  /** Entry `k * |xs| + j` is period k with suffix j. */
  lemma {:induction false} ProductAt(ps: seq<string>, xs: seq<string>, k: nat, j: nat)
    requires k < |ps| && j < |xs|
    ensures k * |xs| + j < |Product(ps, xs)|
    ensures Product(ps, xs)[k * |xs| + j] == ps[k] + xs[j]
    decreases |ps|
  {
    var init := ps[..|ps| - 1];
    ProductLength(init, xs);
    ProductLength(ps, xs);
    MulStep(|ps|, |xs|);
    if k < |init| {
      ProductAt(init, xs, k, j);
      MulBelow(k, j, |init|, |xs|);
      assert init[k] == ps[k];
    }
  }

  /** 3 score columns and 9 starter columns per period; 213 columns in all. */
  lemma HeaderCounts()
    ensures |ScoreHeaders()| == 3 * (W + P) == 51
    ensures |StartersHeaders()| == 9 * (W + P) == 153
    ensures |CsvHeaders()| == 4 + 5 + 51 + 153 == 213
  {
    ProductLength(Periods(), ScoreSuffixes);
    ProductLength(Periods(), PositionSuffixes());
  }

  /** Score column `3k + j` is period k's OP, PTS FOR or PTS AGAINST, weeks
      before playoff rounds. */
  lemma ScoreHeaderAt(k: nat, j: nat)
    requires k < W + P && j < 3
    ensures 3 * k + j < |ScoreHeaders()|
    ensures ScoreHeaders()[3 * k + j] == Periods()[k] + ScoreSuffixes[j]
  {
    ProductAt(Periods(), ScoreSuffixes, k, j);
  }

  /** Starter column `9k + j` is period k followed by position j. */
  lemma StartersHeaderAt(k: nat, j: nat)
    requires k < W + P && j < |Positions|
    ensures 9 * k + j < |StartersHeaders()|
    ensures StartersHeaders()[9 * k + j] == Periods()[k] + " " + Positions[j]
  {
    ProductAt(Periods(), PositionSuffixes(), k, j);
  }

  /** The column groups in order: identity, standings, scores, starters. */
  lemma CsvHeadersLayout()
    ensures |CsvHeaders()| == 213
    ensures CsvHeaders()[..4] == IdentityHeaders
    ensures CsvHeaders()[4..9] == StandingsHeaders
    ensures CsvHeaders()[9..60] == ScoreHeaders()
    ensures CsvHeaders()[60..] == StartersHeaders()
  {
    HeaderCounts();
    var h := CsvHeaders();
    assert h == IdentityHeaders + StandingsHeaders + ScoreHeaders() + StartersHeaders();
  }

  /** A week column's period parses back to its week number. */
  lemma PeriodWeekNumber(k: nat)
    requires k < W
    ensures WeekNumber(Periods()[k]) == Some(k + 1)
  {
    WeekNumberOfLabel(k + 1);
    assert Periods()[k] == WeekLabel(k + 1);
  }

  /** A playoff column's period is not a week of the regular season. */
  lemma PeriodPlayoffs(k: nat)
    requires W <= k < W + P
    ensures WeekNumber(Periods()[k]) == None
  {
    var n := k - W + 1;
    var el := Periods()[k];
    assert el == RoundLabel(n);
    PlayoffLabelNotAWeek(n);
  }

  // ---------------------------------------------------------------------
  // Team records
  // ---------------------------------------------------------------------

  /** What a record cell holds: text, the integer team id, or a score. */
  datatype Cell = Str(s: string) | Int(n: int) | Sc(score: Score)

  type Record = map<string, Cell>

  /** `FantasyTeam` of `FFLTeams.py`: name, abbreviation and id. */
  datatype FantasyTeam = FantasyTeam(teamName: string, teamAbb: string, teamID: int)

  /** `{k: '' for k in CSV_HEADERS}`. */
  function BlankRecord(): (r: Record)
    ensures forall k :: k in r <==> k in CsvHeaders()
  {
    map k | k in CsvHeaders() :: Str("")
  }

  /** The record `update_basics` gives one team. */
  function BasicRecord(owner: string, team: FantasyTeam): Record {
    BlankRecord()["OWNER" := Str(owner)]["TEAM NAME" := Str(team.teamName)]
                 ["TEAM ABB" := Str(team.teamAbb)]["TEAM ID" := Int(team.teamID)]
  }

  /** A team's record has exactly the CSV columns, the four identity columns
      filled in and every other column empty. */
  lemma BasicRecordSpec(owner: string, team: FantasyTeam)
    ensures var r := BasicRecord(owner, team);
            (forall k :: k in r <==> k in CsvHeaders())
            && r["OWNER"] == Str(owner) && r["TEAM NAME"] == Str(team.teamName)
            && r["TEAM ABB"] == Str(team.teamAbb) && r["TEAM ID"] == Int(team.teamID)
            && forall k :: k in r && k !in IdentityHeaders ==> r[k] == Str("")
  {
    assert CsvHeaders()[..4] == IdentityHeaders by {
      assert CsvHeaders() == IdentityHeaders + (StandingsHeaders + ScoreHeaders() + StartersHeaders());
    }
    assert forall i :: 0 <= i < 4 ==> IdentityHeaders[i] in CsvHeaders() by {
      forall i | 0 <= i < 4 ensures IdentityHeaders[i] in CsvHeaders() {
        assert CsvHeaders()[i] == IdentityHeaders[i];
      }
    }
  }

  /** The table after `update_basics` has run over `teams` (the items of
      `TEAMS`, in the order the dict yields them). */
  function Basics(d: map<string, Record>, teams: seq<(string, FantasyTeam)>): map<string, Record>
    decreases |teams|
  {
    if teams == [] then d
    else
      var (owner, team) := teams[|teams| - 1];
      Basics(d, teams[..|teams| - 1])[team.teamName := BasicRecord(owner, team)]
  }

  lemma BasicsAt(d: map<string, Record>, teams: seq<(string, FantasyTeam)>, i: nat)
    requires i < |teams|
    ensures Basics(d, teams[..i + 1]) == Basics(d, teams[..i])[teams[i].1.teamName := BasicRecord(teams[i].0, teams[i].1)]
  {
    assert teams[..i + 1][..i] == teams[..i];
  }

  /** A team's name holds the record of the last pair naming it. */
  lemma {:induction false} BasicsLast(d: map<string, Record>, teams: seq<(string, FantasyTeam)>, i: nat)
    requires i < |teams|
    requires forall j :: i < j < |teams| ==> teams[j].1.teamName != teams[i].1.teamName
    ensures teams[i].1.teamName in Basics(d, teams)
    ensures Basics(d, teams)[teams[i].1.teamName] == BasicRecord(teams[i].0, teams[i].1)
    decreases |teams|
  {
    var init := teams[..|teams| - 1];
    if i < |init| {
      forall j | i < j < |init| ensures init[j].1.teamName != init[i].1.teamName {
        assert init[j] == teams[j] && init[i] == teams[i];
      }
      BasicsLast(d, init, i);
      assert init[i] == teams[i];
    }
  }

  /** A name no pair carries keeps whatever the table had. */
  lemma {:induction false} BasicsFrame(d: map<string, Record>, teams: seq<(string, FantasyTeam)>, name: string)
    requires forall j :: 0 <= j < |teams| ==> teams[j].1.teamName != name
    ensures name in Basics(d, teams) <==> name in d
    ensures name in d ==> Basics(d, teams)[name] == d[name]
    decreases |teams|
  {
    if teams != [] {
      var init := teams[..|teams| - 1];
      forall j | 0 <= j < |init| ensures init[j].1.teamName != name {
        assert init[j] == teams[j];
      }
      BasicsFrame(d, init, name);
    }
  }

  // ---------------------------------------------------------------------
  // Game columns
  // ---------------------------------------------------------------------

  function OpKey(week: string): string {
    week + " OP"
  }

  function ForKey(week: string): string {
    week + " PTS FOR"
  }

  function AgainstKey(week: string): string {
    week + " PTS AGAINST"
  }

  /** The three columns of a week are different columns. */
  lemma GameKeysDistinct(week: string)
    ensures OpKey(week) != ForKey(week) && OpKey(week) != AgainstKey(week) && ForKey(week) != AgainstKey(week)
  {
    assert |OpKey(week)| == |week| + 3 && |ForKey(week)| == |week| + 8 && |AgainstKey(week)| == |week| + 12;
  }

  /** `d[t]` of a `defaultdict(dict)`: an empty record for a new name. */
  function Entry(d: map<string, Record>, t: string): Record {
    if t in d then d[t] else map[]
  }

  const Box: Score := Marker("Box")

  /** `d[t][k] = v` on a `defaultdict(dict)`. */
  function Set(d: map<string, Record>, t: string, k: string, v: Cell): Record {
    Entry(d, t)[k := v]
  }

  /** The six writes of one game: the opponent and both scores to the home
      team's columns, then the mirror to the away team's. */
  function WriteGame(d: map<string, Record>, row: ScoreRow): map<string, Record> {
    var d1 := d[row.home := Set(d, row.home, OpKey(row.week), Str(row.away))];
    var d2 := d1[row.home := Set(d1, row.home, ForKey(row.week), Sc(row.homeS))];
    var d3 := d2[row.home := Set(d2, row.home, AgainstKey(row.week), Sc(row.awayS))];
    var d4 := d3[row.away := Set(d3, row.away, OpKey(row.week), Str(row.home))];
    var d5 := d4[row.away := Set(d4, row.away, ForKey(row.week), Sc(row.awayS))];
    d5[row.away := Set(d5, row.away, AgainstKey(row.week), Sc(row.homeS))]
  }

  /** The table after `update_scores` has run over the rows: `Box` rows are
      passed over. */
  function Scores(d: map<string, Record>, rows: seq<ScoreRow>): map<string, Record>
    decreases |rows|
  {
    if rows == [] then d
    else
      var prev := Scores(d, rows[..|rows| - 1]);
      var row := rows[|rows| - 1];
      if row.homeS == Box then prev else WriteGame(prev, row)
  }

  lemma ScoresAt(d: map<string, Record>, rows: seq<ScoreRow>, i: nat)
    requires i < |rows|
    ensures Scores(d, rows[..i + 1])
            == if rows[i].homeS == Box then Scores(d, rows[..i]) else WriteGame(Scores(d, rows[..i]), rows[i])
  {
    assert rows[..i + 1][..i] == rows[..i];
  }

  /** A game between two teams writes each the other as opponent, its own
      score as PTS FOR and the other's as PTS AGAINST (for a team playing
      itself the away writes come last and win). */
  lemma WriteGameScores(d: map<string, Record>, row: ScoreRow)
    ensures var e := WriteGame(d, row);
            row.home in e && row.away in e
            && e[row.away][OpKey(row.week)] == Str(row.home)
            && e[row.away][ForKey(row.week)] == Sc(row.awayS)
            && e[row.away][AgainstKey(row.week)] == Sc(row.homeS)
            && (row.home != row.away ==>
                  e[row.home][OpKey(row.week)] == Str(row.away)
                  && e[row.home][ForKey(row.week)] == Sc(row.homeS)
                  && e[row.home][AgainstKey(row.week)] == Sc(row.awayS))
  {
    GameKeysDistinct(row.week);
  }

  /** The game creates the two records it needs and leaves every other
      column and every other team alone. */
  lemma WriteGameFrame(d: map<string, Record>, row: ScoreRow)
    ensures var e := WriteGame(d, row);
            e.Keys == d.Keys + {row.home, row.away}
            && (forall t :: t in d && t != row.home && t != row.away ==> e[t] == d[t])
            && (forall t, k ::
                  (t in e && (t == row.home || t == row.away)
                   && k != OpKey(row.week) && k != ForKey(row.week) && k != AgainstKey(row.week)) ==>
                    (k in e[t] <==> k in Entry(d, t)) && (k in e[t] ==> e[t][k] == Entry(d, t)[k]))
  {
  }

  /** `Box` rows change nothing: the loop over all rows is the plain run of
      its games over the other rows. */
  function Games(d: map<string, Record>, rows: seq<ScoreRow>): map<string, Record>
    decreases |rows|
  {
    if rows == [] then d else WriteGame(Games(d, rows[..|rows| - 1]), rows[|rows| - 1])
  }

  function NonBox(rows: seq<ScoreRow>): (r: seq<ScoreRow>)
    ensures forall i :: 0 <= i < |r| ==> r[i].homeS != Box
    decreases |rows|
  {
    if rows == [] then []
    else NonBox(rows[..|rows| - 1]) + (if rows[|rows| - 1].homeS == Box then [] else [rows[|rows| - 1]])
  }

  lemma GamesSnoc(d: map<string, Record>, rows: seq<ScoreRow>, row: ScoreRow)
    ensures Games(d, rows + [row]) == WriteGame(Games(d, rows), row)
  {
    assert (rows + [row])[..|rows|] == rows;
  }

  lemma {:induction false} ScoresSkipBox(d: map<string, Record>, rows: seq<ScoreRow>)
    ensures Scores(d, rows) == Games(d, NonBox(rows))
    decreases |rows|
  {
    if rows != [] {
      var init, row := rows[..|rows| - 1], rows[|rows| - 1];
      ScoresSkipBox(d, init);
      if row.homeS != Box {
        assert NonBox(rows) == NonBox(init) + [row];
        assert Scores(d, rows) == WriteGame(Scores(d, init), row);
        GamesSnoc(d, NonBox(init), row);
      } else {
        assert NonBox(rows) == NonBox(init);
        assert Scores(d, rows) == Scores(d, init);
      }
    }
  }

  /** A team that no game names keeps its record, or stays absent. */
  lemma {:induction false} ScoresFrame(d: map<string, Record>, rows: seq<ScoreRow>, t: string)
    requires forall i :: 0 <= i < |rows| && rows[i].homeS != Box ==> rows[i].home != t && rows[i].away != t
    ensures t in Scores(d, rows) <==> t in d
    ensures t in d ==> Scores(d, rows)[t] == d[t]
    decreases |rows|
  {
    if rows != [] {
      var init := rows[..|rows| - 1];
      forall i | 0 <= i < |init| && init[i].homeS != Box ensures init[i].home != t && init[i].away != t {
        assert init[i] == rows[i];
      }
      ScoresFrame(d, init, t);
    }
  }

  /** One pass of `update_basics`: a blank record under the team's name,
      then its four identity columns, one write each. */
  method WriteBasics(d0: map<string, Record>, owner: string, team: FantasyTeam) returns (d: map<string, Record>)
    ensures d == d0[team.teamName := BasicRecord(owner, team)]
  {
    var name := team.teamName;
    d := d0[name := BlankRecord()];
    d := d[name := d[name]["OWNER" := Str(owner)]];
    d := d[name := d[name]["TEAM NAME" := Str(team.teamName)]];
    d := d[name := d[name]["TEAM ABB" := Str(team.teamAbb)]];
    d := d[name := d[name]["TEAM ID" := Int(team.teamID)]];
  }

  // ---------------------------------------------------------------------
  // The shared table
  // ---------------------------------------------------------------------

  /** `d = collections.defaultdict(dict)`, team name to record, as the
      update functions change it. */
  class LeagueTable {
    var d: map<string, Record>

    constructor()
      ensures d == map[]
    {
      d := map[];
    }

    /** `update_basics`: a fresh record per team, filled in key by key. */
    method UpdateBasics(teams: seq<(string, FantasyTeam)>)
      modifies this
      ensures d == Basics(old(d), teams)
    {
      ghost var d0 := d;
      var i := 0;
      while i < |teams|
        invariant 0 <= i <= |teams|
        invariant d == Basics(d0, teams[..i])
      {
        BasicsAt(d0, teams, i);
        d := WriteBasics(d, teams[i].0, teams[i].1);
        i := i + 1;
      }
      assert teams[..i] == teams;
    }

    /** `update_scores`: six writes per game, nothing for a `Box` row. */
    method UpdateScores(scores: seq<ScoreRow>)
      modifies this
      ensures d == Scores(old(d), scores)
    {
      ghost var d0 := d;
      var i := 0;
      while i < |scores|
        invariant 0 <= i <= |scores|
        invariant d == Scores(d0, scores[..i])
      {
        var row := scores[i];
        ScoresAt(d0, scores, i);
        if row.homeS != Box {
          d := d[row.home := Set(d, row.home, OpKey(row.week), Str(row.away))];
          d := d[row.home := Set(d, row.home, ForKey(row.week), Sc(row.homeS))];
          d := d[row.home := Set(d, row.home, AgainstKey(row.week), Sc(row.awayS))];
          d := d[row.away := Set(d, row.away, OpKey(row.week), Str(row.home))];
          d := d[row.away := Set(d, row.away, ForKey(row.week), Sc(row.awayS))];
          d := d[row.away := Set(d, row.away, AgainstKey(row.week), Sc(row.homeS))];
        }
        i := i + 1;
      }
      assert scores[..i] == scores;
    }
  }

  // ---------------------------------------------------------------------
  // Row order of write_to_csv
  // ---------------------------------------------------------------------

  const Av := "AV"
  const Std := "STD"

  /** The names of a sorted list that are not `AV` or `STD`, in order. */
  function RealTeams(names: seq<string>): (r: seq<string>)
    ensures forall x :: x in r <==> x in names && x != Av && x != Std
    ensures |r| <= |names|
    decreases |names|
  {
    if names == [] then []
    else
      var last := names[|names| - 1];
      RealTeams(names[..|names| - 1]) + (if last == Av || last == Std then [] else [last])
  }

  /** Leaving names out keeps a strictly sorted list sorted. */
  lemma {:induction false} RealTeamsSorted(names: seq<string>)
    requires StrictlySorted(names)
    ensures StrictlySorted(RealTeams(names))
    decreases |names|
  {
    if names != [] {
      var init, last := names[..|names| - 1], names[|names| - 1];
      assert StrictlySorted(init);
      RealTeamsSorted(init);
      var front := RealTeams(init);
      if last != Av && last != Std {
        var r := front + [last];
        forall i, j | 0 <= i < j < |r| ensures StrLt(r[i], r[j]) {
          if j == |r| - 1 {
            assert r[i] in init;
            var a :| 0 <= a < |init| && init[a] == r[i];
            assert names[a] == r[i];
          } else {
            assert r[i] == front[i] && r[j] == front[j];
          }
        }
      }
    }
  }

  /** One record per name, each the `defaultdict` entry under that name. */
  function RowsOf(d: map<string, Record>, names: seq<string>): (r: seq<Record>)
    ensures |r| == |names|
    ensures forall i :: 0 <= i < |names| ==> r[i] == Entry(d, names[i])
  {
    seq(|names|, i requires 0 <= i < |names| => Entry(d, names[i]))
  }

  /** The team names `write_to_csv` writes: `sorted(d)` without `AV` and
      `STD`, so in strictly increasing order and exactly the real teams. */
  ghost function TeamOrder(d: map<string, Record>): (names: seq<string>)
    ensures StrictlySorted(names)
    ensures forall x :: x in names <==> x in d && x != Av && x != Std
  {
    var all := SortedStrings(d.Keys);
    RealTeamsSorted(all);
    RealTeams(all)
  }

  /** The rows `write_to_csv` writes: every real team in sorted name order,
      then `d['AV']` and `d['STD']` (empty records when absent, as the
      `defaultdict` gives them). */
  ghost function CsvRows(d: map<string, Record>): seq<Record> {
    RowsOf(d, TeamOrder(d)) + [Entry(d, Av), Entry(d, Std)]
  }

  /** After one row per real team come the AV row and the STD row. */
  lemma CsvRowsOrder(d: map<string, Record>)
    ensures |CsvRows(d)| == |TeamOrder(d)| + 2
    ensures CsvRows(d)[|TeamOrder(d)|] == Entry(d, Av)
    ensures CsvRows(d)[|TeamOrder(d)| + 1] == Entry(d, Std)
  {
  }

  /** Row `i` is the record of the `i`-th team in name order. */
  lemma CsvRowOfTeam(d: map<string, Record>, i: nat)
    requires i < |TeamOrder(d)|
    ensures TeamOrder(d)[i] in d && CsvRows(d)[i] == d[TeamOrder(d)[i]]
  {
    var names := TeamOrder(d);
    assert names[i] in names;
    assert CsvRows(d)[i] == RowsOf(d, names)[i];
  }
}
