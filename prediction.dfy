/** The projection table of `getdraftdata.py`: one scraped row becomes a
    header-to-cell record, and the cleaning pass turns the combined
    `PLAYER, TEAM POS` cell into the `FIRST`, `LAST`, `TEAM` and `POS`
    columns, renames `TYPE` to `F TEAM` and fans multi-position players out
    into copies. */
module Prediction {
  import opened Wrappers
  import opened Text

  /** A table row as a dict from header text to cell text. */
  type Record = map<string, string>

  const NotATablePage := "This is not a valid table page!"

  function Min(a: nat, b: nat): nat {
    if a <= b then a else b
  }

  // ---------------------------------------------------------------------
  // espn_get_prediction
  // ---------------------------------------------------------------------

  /** `{h: v for (h, v) in zip(headers, cells)}`: pairs run to the shorter of
      the two lists, and a repeated header keeps its last cell. */
  function ZipRecord(headers: seq<string>, cells: seq<string>): Record
    decreases |headers|
  {
    var n := Min(|headers|, |cells|);
    if n == 0 then map[]
    else ZipRecord(headers[..n - 1], cells[..n - 1])[headers[n - 1] := cells[n - 1]]
  }

  /** The keys are exactly the headers that have a cell. */
  lemma {:induction false} ZipRecordKeys(headers: seq<string>, cells: seq<string>, h: string)
    ensures h in ZipRecord(headers, cells) <==> exists i :: 0 <= i < Min(|headers|, |cells|) && headers[i] == h
    decreases |headers|
  {
    var n := Min(|headers|, |cells|);
    if n > 0 {
      var hs, cs := headers[..n - 1], cells[..n - 1];
      ZipRecordKeys(hs, cs, h);
      assert Min(|hs|, |cs|) == n - 1;
      if h in ZipRecord(headers, cells) && h != headers[n - 1] {
        var i :| 0 <= i < n - 1 && hs[i] == h;
        assert headers[i] == h;
      }
      if exists i :: 0 <= i < n && headers[i] == h {
        var i :| 0 <= i < n && headers[i] == h;
        if i < n - 1 {
          assert hs[i] == h;
        }
      }
    }
  }

  /** Header i gets cell i, unless a later header with a cell repeats it. */
  lemma {:induction false} ZipRecordAt(headers: seq<string>, cells: seq<string>, i: nat)
    requires i < Min(|headers|, |cells|)
    requires forall j :: i < j < Min(|headers|, |cells|) ==> headers[j] != headers[i]
    ensures headers[i] in ZipRecord(headers, cells)
    ensures ZipRecord(headers, cells)[headers[i]] == cells[i]
    decreases |headers|
  {
    var n := Min(|headers|, |cells|);
    if i < n - 1 {
      var hs, cs := headers[..n - 1], cells[..n - 1];
      assert Min(|hs|, |cs|) == n - 1;
      forall j | i < j < n - 1 ensures hs[j] != hs[i] {
        assert hs[j] == headers[j];
      }
      ZipRecordAt(hs, cs, i);
    }
  }

  /** `espn_get_prediction` over the already extracted header texts (None
      when the page has no sub-header row) and the cell texts of each player
      row. */
  function EspnGetPrediction(headers: Option<seq<string>>, rows: seq<seq<string>>): (r: Result<seq<Record>, string>)
    ensures r.Failure? <==> headers.None?
    ensures r.Failure? ==> r.error == NotATablePage
    ensures r.Success? ==> |r.value| == |rows|
    ensures r.Success? ==> forall i :: 0 <= i < |rows| ==> r.value[i] == ZipRecord(headers.value, rows[i])
  {
    match headers
    case None => Failure(NotATablePage)
    case Some(hs) => Success(seq(|rows|, i requires 0 <= i < |rows| => ZipRecord(hs, rows[i])))
  }

  /** With distinct headers every one that has a cell maps to its own cell,
      in every parsed row. */
  lemma EspnGetPredictionCells(headers: seq<string>, rows: seq<seq<string>>, i: nat, k: nat)
    requires forall a, b :: 0 <= a < b < |headers| ==> headers[a] != headers[b]
    requires i < |rows| && k < Min(|headers|, |rows[i]|)
    ensures EspnGetPrediction(Some(headers), rows).Success?
    ensures headers[k] in EspnGetPrediction(Some(headers), rows).value[i]
    ensures EspnGetPrediction(Some(headers), rows).value[i][headers[k]] == rows[i][k]
  {
    ZipRecordAt(headers, rows[i], k);
  }

  // ---------------------------------------------------------------------
  // Cleaning loop of espn_prediction_to_file
  // ---------------------------------------------------------------------

  const PlayerTeamPos := "PLAYER, TEAM POS"
  const NoBreakSpace: string := [0xA0 as char]
  const DefenseTag := "D/ST"
  const CommaSpace := ", "

  /** `MASCOT`: team nickname to the abbreviation ESPN uses. */
  const Mascot: map<string, string> := map[
    "49ers" := "SF", "Bears" := "Chi", "Bengals" := "Cin", "Bills" := "Buf",
    "Broncos" := "Den", "Browns" := "Cle", "Buccaneers" := "TB", "Cardinals" := "Ari",
    "Chargers" := "SD", "Chiefs" := "KC", "Colts" := "Ind", "Cowboys" := "Dal",
    "Dolphins" := "Mia", "Eagles" := "Phi", "Falcons" := "Atl", "Giants" := "NYG",
    "Jaguars" := "Jax", "Jets" := "NYJ", "Lions" := "Det", "Packers" := "GB",
    "Panthers" := "Car", "Patriots" := "NE", "Raiders" := "Oak", "Rams" := "StL",
    "Ravens" := "Bal", "Redskins" := "Was", "Saints" := "NO", "Seahawks" := "Sea",
    "Steelers" := "Pit", "Texans" := "Hou", "Titans" := "Ten", "Vikings" := "Min"]

  /** The exception a malformed row raises: a missing key (`KeyError`), fewer
      than two `\xa0` pieces or a name cell that is not `name, team` (an
      unpacking `ValueError`), or a defence whose nickname is not in the
      table. */
  datatype CleanError = MissingKey(key: string) | TooFewPieces | UnknownMascot(mascot: string) | NotNameAndTeam

  /** One cleaned row: the record itself, with its first position, and the
      copies for its further positions. */
  datatype Cleaned = Cleaned(original: Record, copies: seq<Record>)

  /** The player name and team from the part before the `\xa0`. */
  function NameAndTeam(pt: string): Result<(string, string), CleanError> {
    if Contains(pt, DefenseTag) then
      var mascot := Split(pt, " ")[0];
      if mascot in Mascot then Success((pt, Mascot[mascot])) else Failure(UnknownMascot(mascot))
    else
      var parts := Split(pt, CommaSpace);
      if |parts| == 2 then Success((parts[0], parts[1])) else Failure(NotNameAndTeam)
  }

  function SetName(player: Record, name: string, team: string): Record {
    var splitName := Split(name, " ");
    player["FIRST" := splitName[0]]["LAST" := Join(splitName[1..], " ")]["TEAM" := team]
  }

  /** The body of the cleaning loop for one row. */
  function CleanRecord(player: Record): Result<Cleaned, CleanError> {
    if PlayerTeamPos !in player then Failure(MissingKey(PlayerTeamPos))
    else
      var pieces := Split(player[PlayerTeamPos], NoBreakSpace);
      if |pieces| < 2 then Failure(TooFewPieces)
      else
        var named := NameAndTeam(pieces[0]);
        if named.Failure? then Failure(named.error)
        else
          var base := SetName(player - {PlayerTeamPos}, named.value.0, named.value.1);
          if "TYPE" !in base then Failure(MissingKey("TYPE"))
          else
            var moved := (base - {"TYPE"})["F TEAM" := base["TYPE"]];
            var positions := Split(pieces[1], CommaSpace);
            var original := moved["POS" := positions[0]];
            Success(Cleaned(original, Copies(original, positions)))
  }

  /** A copy of the record per further position, each with that `POS`. */
  function Copies(original: Record, positions: seq<string>): (r: seq<Record>)
    ensures |r| == if |positions| == 0 then 0 else |positions| - 1
    ensures forall i :: 0 <= i < |r| ==> r[i] == original["POS" := positions[i + 1]]
  {
    if |positions| == 0 then []
    else seq(|positions| - 1, i requires 0 <= i < |positions| - 1 => original["POS" := positions[i + 1]])
  }

  /** A row fails exactly in the five ways the loop can raise. */
  lemma CleanRecordFailure(player: Record)
    ensures CleanRecord(player).Failure? <==>
      PlayerTeamPos !in player
      || |Split(player[PlayerTeamPos], NoBreakSpace)| < 2
      || NameAndTeam(Split(player[PlayerTeamPos], NoBreakSpace)[0]).Failure?
      || "TYPE" !in player
  {
  }

  /** The combined cell and `TYPE` are gone, `F TEAM` holds the old `TYPE`,
      the four new columns are set, and every other column is untouched. */
  lemma CleanRecordColumns(player: Record)
    requires CleanRecord(player).Success?
    ensures var o := CleanRecord(player).value.original;
            PlayerTeamPos !in o && "TYPE" !in o
            && "FIRST" in o && "LAST" in o && "TEAM" in o && "POS" in o
            && "F TEAM" in o && o["F TEAM"] == player["TYPE"]
            && forall k :: k !in {PlayerTeamPos, "TYPE", "F TEAM", "FIRST", "LAST", "TEAM", "POS"} ==>
                 (k in o <==> k in player) && (k in o ==> o[k] == player[k])
  {
  }

  /** The cell starts with the name-and-team part, a no-break space and the
      position list, and neither part contains a no-break space. */
  lemma CleanRecordPieces(player: Record)
    requires CleanRecord(player).Success?
    ensures var pieces := Split(player[PlayerTeamPos], NoBreakSpace);
            StartsWith(player[PlayerTeamPos], pieces[0] + NoBreakSpace + pieces[1])
            && !Contains(pieces[0], NoBreakSpace) && !Contains(pieces[1], NoBreakSpace)
  {
    var cell := player[PlayerTeamPos];
    SplitFirstTwo(cell, NoBreakSpace);
    SplitPiecesAvoidSeparator(cell, NoBreakSpace);
  }

  /** `FIRST` is the first space-separated word of the name and `LAST` the
      rest: joined by a space they give the name back. */
  lemma CleanRecordName(player: Record)
    requires CleanRecord(player).Success?
    ensures var o := CleanRecord(player).value.original;
            var name := NameAndTeam(Split(player[PlayerTeamPos], NoBreakSpace)[0]).value.0;
            !Contains(o["FIRST"], " ")
            && (if Contains(name, " ") then o["FIRST"] + " " + o["LAST"] == name
                else o["FIRST"] == name && o["LAST"] == "")
  {
    var name := NameAndTeam(Split(player[PlayerTeamPos], NoBreakSpace)[0]).value.0;
    var o := CleanRecord(player).value.original;
    assert o["FIRST"] == Split(name, " ")[0] && o["LAST"] == Join(Split(name, " ")[1..], " ");
    NameWords(name);
  }

  /** The first word of a name and the rest joined by spaces: the first word
      has no space, and with a space in the name the two give it back. */
  lemma NameWords(name: string)
    ensures var words := Split(name, " ");
            !Contains(words[0], " ")
            && (if Contains(name, " ") then words[0] + " " + Join(words[1..], " ") == name
                else words[0] == name && Join(words[1..], " ") == "")
  {
    var words := Split(name, " ");
    SplitPiecesAvoidSeparator(name, " ");
    JoinSplit(name, " ");
    if Contains(name, " ") {
      SplitWithSeparator(name, " ");
      assert words == [words[0]] + words[1..];
      JoinCons(words[0], words[1..], " ");
    } else {
      SplitWithoutSeparator(name, " ");
    }
  }

  /** A defence keeps the whole part as its name and takes its team from the
      nickname table; anyone else's part is `name, team`. */
  lemma CleanRecordTeam(player: Record)
    requires CleanRecord(player).Success?
    ensures var pt := Split(player[PlayerTeamPos], NoBreakSpace)[0];
            var o := CleanRecord(player).value.original;
            var named := NameAndTeam(pt).value;
            if Contains(pt, DefenseTag) then
              named.0 == pt && Split(pt, " ")[0] in Mascot && o["TEAM"] == Mascot[Split(pt, " ")[0]]
            else
              named.0 + CommaSpace + named.1 == pt && o["TEAM"] == named.1
              && !Contains(named.0, CommaSpace) && !Contains(named.1, CommaSpace)
  {
    var pt := Split(player[PlayerTeamPos], NoBreakSpace)[0];
    if !Contains(pt, DefenseTag) {
      var parts := Split(pt, CommaSpace);
      JoinSplit(pt, CommaSpace);
      SplitPiecesAvoidSeparator(pt, CommaSpace);
      assert parts == [parts[0]] + [parts[1]];
      JoinCons(parts[0], [parts[1]], CommaSpace);
    }
  }

  /** The record takes the first listed position, and there is one copy per
      further position, in order, differing from the record only in `POS`:
      the positions joined back give the listed ones. */
  lemma CleanRecordPositions(player: Record)
    requires CleanRecord(player).Success?
    ensures var c := CleanRecord(player).value;
            var positions := Split(Split(player[PlayerTeamPos], NoBreakSpace)[1], CommaSpace);
            |c.copies| == |positions| - 1
            && c.original["POS"] == positions[0]
            && (forall i :: 0 <= i < |c.copies| ==> c.copies[i] == c.original["POS" := positions[i + 1]])
            && Join(Positions(c), CommaSpace) == Split(player[PlayerTeamPos], NoBreakSpace)[1]
  {
    var c := CleanRecord(player).value;
    var listed := Split(player[PlayerTeamPos], NoBreakSpace)[1];
    var positions := Split(listed, CommaSpace);
    assert Positions(c) == positions;
    JoinSplit(listed, CommaSpace);
  }

  /** The `POS` of a cleaned row and of each of its copies. */
  function Positions(c: Cleaned): (r: seq<string>)
    requires "POS" in c.original && forall i :: 0 <= i < |c.copies| ==> "POS" in c.copies[i]
    ensures |r| == |c.copies| + 1
  {
    [c.original["POS"]] + seq(|c.copies|, i requires 0 <= i < |c.copies| => c.copies[i]["POS"])
  }

  /** The results of the rows, in order, gathered as the loop does: all
      values, or the error of the first row that raises. */
  function Collect(rs: seq<Result<Cleaned, CleanError>>): Result<seq<Cleaned>, CleanError>
    decreases |rs|
  {
    if |rs| == 0 then Success([])
    else
      var init := Collect(rs[..|rs| - 1]);
      if init.Failure? then init
      else
        var last := rs[|rs| - 1];
        if last.Failure? then Failure(last.error) else Success(init.value + [last.value])
  }

  /** Each row's cleaning, on its own. */
  function CleanEach(pred: seq<Record>): (r: seq<Result<Cleaned, CleanError>>)
    ensures |r| == |pred| && forall i :: 0 <= i < |pred| ==> r[i] == CleanRecord(pred[i])
  {
    seq(|pred|, i requires 0 <= i < |pred| => CleanRecord(pred[i]))
  }

  /** The whole loop. */
  function CleanAll(pred: seq<Record>): Result<seq<Cleaned>, CleanError> {
    Collect(CleanEach(pred))
  }

  /** On success, entry i of the result is the value of result i. */
  lemma {:induction false} CollectValues(rs: seq<Result<Cleaned, CleanError>>)
    ensures Collect(rs).Success? ==>
              |Collect(rs).value| == |rs| && forall i :: 0 <= i < |rs| ==> rs[i] == Success(Collect(rs).value[i])
    decreases |rs|
  {
    if |rs| > 0 && Collect(rs).Success? {
      var init := rs[..|rs| - 1];
      CollectValues(init);
      assert Collect(rs).value == Collect(init).value + [rs[|rs| - 1].value];
      forall i | 0 <= i < |rs| ensures rs[i] == Success(Collect(rs).value[i]) {
        if i < |init| {
          assert init[i] == rs[i];
        }
      }
    }
  }

  /** On failure, some result fails, every result before it succeeds, and its
      error is the whole loop's. */
  lemma {:induction false} CollectFirstFailure(rs: seq<Result<Cleaned, CleanError>>)
    ensures Collect(rs).Failure? ==>
              exists i :: 0 <= i < |rs| && rs[i].Failure? && Collect(rs).error == rs[i].error
                          && forall j :: 0 <= j < i ==> rs[j].Success?
    decreases |rs|
  {
    if |rs| > 0 && Collect(rs).Failure? {
      var init := rs[..|rs| - 1];
      if Collect(init).Failure? {
        CollectFirstFailure(init);
        var i :| 0 <= i < |init| && init[i].Failure? && Collect(init).error == init[i].error
                 && forall j :: 0 <= j < i ==> init[j].Success?;
        assert init[i] == rs[i];
        forall j | 0 <= j < i ensures rs[j].Success? {
          assert init[j] == rs[j];
        }
      } else {
        CollectValues(init);
        forall j | 0 <= j < |rs| - 1 ensures rs[j].Success? {
          assert init[j] == rs[j];
        }
      }
    }
  }

  /** A failure in a prefix is the failure of the whole loop. */
  lemma {:induction false} CollectFailurePrefix(rs: seq<Result<Cleaned, CleanError>>, n: nat)
    requires n <= |rs| && Collect(rs[..n]).Failure?
    ensures Collect(rs) == Collect(rs[..n])
    decreases |rs| - n
  {
    if n < |rs| {
      assert rs[..n + 1][..n] == rs[..n];
      CollectFailurePrefix(rs, n + 1);
    } else {
      assert rs[..n] == rs;
    }
  }

  /** The loop succeeds exactly when every row does; then row i is the
      cleaning of input row i. Otherwise the error is that of the first row
      that fails. */
  lemma CleanAllSpec(pred: seq<Record>)
    ensures CleanAll(pred).Success? <==> forall i :: 0 <= i < |pred| ==> CleanRecord(pred[i]).Success?
    ensures CleanAll(pred).Success? ==>
              |CleanAll(pred).value| == |pred|
              && forall i :: 0 <= i < |pred| ==> CleanRecord(pred[i]) == Success(CleanAll(pred).value[i])
    ensures CleanAll(pred).Failure? ==>
              exists i :: 0 <= i < |pred| && CleanRecord(pred[i]).Failure?
                          && CleanAll(pred).error == CleanRecord(pred[i]).error
                          && forall j :: 0 <= j < i ==> CleanRecord(pred[j]).Success?
  {
    var rs := CleanEach(pred);
    CollectValues(rs);
    CollectFirstFailure(rs);
  }

  function Originals(cs: seq<Cleaned>): (r: seq<Record>)
    ensures |r| == |cs| && forall i :: 0 <= i < |cs| ==> r[i] == cs[i].original
  {
    seq(|cs|, i requires 0 <= i < |cs| => cs[i].original)
  }

  /** Every row's copies, row after row. */
  function AllCopies(cs: seq<Cleaned>): seq<Record>
    decreases |cs|
  {
    if |cs| == 0 then [] else AllCopies(cs[..|cs| - 1]) + cs[|cs| - 1].copies
  }

  function CopyCount(cs: seq<Cleaned>): nat
    decreases |cs|
  {
    if |cs| == 0 then 0 else CopyCount(cs[..|cs| - 1]) + |cs[|cs| - 1].copies|
  }

  /** The rows written out: all cleaned records first, then all copies. */
  function Output(cs: seq<Cleaned>): seq<Record> {
    Originals(cs) + AllCopies(cs)
  }

  /** The copies come out in row order, as many as all rows' further
      positions. */
  lemma {:induction false} AllCopiesCount(cs: seq<Cleaned>)
    ensures |AllCopies(cs)| == CopyCount(cs)
    decreases |cs|
  {
    if |cs| > 0 {
      AllCopiesCount(cs[..|cs| - 1]);
    }
  }

  /** The output holds one record per input row followed by the copies. */
  lemma OutputLayout(cs: seq<Cleaned>)
    ensures |Output(cs)| == |cs| + CopyCount(cs)
    ensures forall i :: 0 <= i < |cs| ==> Output(cs)[i] == cs[i].original
    ensures Output(cs)[|cs|..] == AllCopies(cs)
  {
    AllCopiesCount(cs);
  }

  /** What result i adds to the gathered results. */
  lemma CollectAt(rs: seq<Result<Cleaned, CleanError>>, i: nat, done: seq<Cleaned>)
    requires i < |rs| && Collect(rs[..i]) == Success(done)
    ensures Collect(rs[..i + 1]) == if rs[i].Failure? then Failure(rs[i].error) else Success(done + [rs[i].value])
  {
    assert rs[..i + 1][..i] == rs[..i];
  }

  /** What one more cleaned row adds to the records and the copies. */
  lemma OutputAt(done: seq<Cleaned>, c: Cleaned)
    ensures Originals(done + [c]) == Originals(done) + [c.original]
    ensures AllCopies(done + [c]) == AllCopies(done) + c.copies
  {
    assert (done + [c])[..|done|] == done;
  }

  /** The body of the cleaning loop for one row, as the program runs it: the
      row is edited key by key and each further position appends a copy to
      `multiPosPred`. */
  method CleanPlayer(player0: Record, multiPosPred0: seq<Record>) returns (r: Result<(Record, seq<Record>), CleanError>)
    ensures r.Failure? <==> CleanRecord(player0).Failure?
    ensures r.Failure? ==> r.error == CleanRecord(player0).error
    ensures r.Success? ==> r.value.0 == CleanRecord(player0).value.original
                           && r.value.1 == multiPosPred0 + CleanRecord(player0).value.copies
  {
    var player := player0;
    if PlayerTeamPos !in player {
      return Failure(MissingKey(PlayerTeamPos));
    }
    var ptp := player[PlayerTeamPos];
    player := player - {PlayerTeamPos};
    var pieces := Split(ptp, NoBreakSpace);
    if |pieces| < 2 {
      return Failure(TooFewPieces);
    }
    var pt, pos := pieces[0], pieces[1];
    var playerName, playerTeam;
    if Contains(pt, DefenseTag) {
      var mascot := Split(pt, " ")[0];
      if mascot !in Mascot {
        return Failure(UnknownMascot(mascot));
      }
      playerName, playerTeam := pt, Mascot[mascot];
    } else {
      var parts := Split(pt, CommaSpace);
      if |parts| != 2 {
        return Failure(NotNameAndTeam);
      }
      playerName, playerTeam := parts[0], parts[1];
    }
    assert NameAndTeam(pt) == Success((playerName, playerTeam));
    var splitName := Split(playerName, " ");
    player := player["FIRST" := splitName[0]];
    player := player["LAST" := Join(splitName[1..], " ")];
    player := player["TEAM" := playerTeam];
    assert player == SetName(player0 - {PlayerTeamPos}, playerName, playerTeam);
    if "TYPE" !in player {
      return Failure(MissingKey("TYPE"));
    }
    var fTeam := player["TYPE"];
    player := player - {"TYPE"};
    player := player["F TEAM" := fTeam];
    var posList := Split(pos, CommaSpace);
    player := player["POS" := posList[0]];
    ghost var c := CleanRecord(player0).value;
    assert player == c.original && c.copies == Copies(player, posList);
    var multiPosPred := AppendCopies(player, posList, multiPosPred0);
    return Success((player, multiPosPred));
  }

  /** The inner loop over the further positions: one copy each, appended in
      order. */
  method AppendCopies(player: Record, posList: seq<string>, multiPosPred0: seq<Record>) returns (multiPosPred: seq<Record>)
    requires |posList| >= 1
    ensures multiPosPred == multiPosPred0 + Copies(player, posList)
  {
    ghost var copies := Copies(player, posList);
    multiPosPred := multiPosPred0;
    var k := 1;
    while k < |posList|
      invariant 1 <= k <= |posList|
      invariant multiPosPred == multiPosPred0 + copies[..k - 1]
    {
      var newPlayer := player["POS" := posList[k]];
      multiPosPred := multiPosPred + [newPlayer];
      assert copies[..k] == copies[..k - 1] + [newPlayer];
      k := k + 1;
    }
    assert copies[..k - 1] == copies;
  }

  /** The cleaning loop: it edits each row, collects the copies in a second
      list, and writes the rows followed by the copies. */
  method CleanPredictions(pred: seq<Record>) returns (r: Result<seq<Record>, CleanError>)
    ensures r.Success? <==> CleanAll(pred).Success?
    ensures r.Success? ==> r.value == Output(CleanAll(pred).value)
    ensures r.Failure? ==> r.error == CleanAll(pred).error
  {
    var cleaned: seq<Record> := [];
    var multiPosPred: seq<Record> := [];
    ghost var rs := CleanEach(pred);
    ghost var done: seq<Cleaned> := [];
    var i := 0;
    while i < |pred|
      invariant 0 <= i <= |pred|
      invariant Collect(rs[..i]) == Success(done)
      invariant cleaned == Originals(done) && multiPosPred == AllCopies(done)
    {
      var step := CleanPlayer(pred[i], multiPosPred);
      assert rs[i] == CleanRecord(pred[i]);
      CollectAt(rs, i, done);
      if step.Failure? {
        CollectFailurePrefix(rs, i + 1);
        return Failure(step.error);
      }
      ghost var c := rs[i].value;
      OutputAt(done, c);
      cleaned := cleaned + [step.value.0];
      multiPosPred := step.value.1;
      done := done + [c];
      i := i + 1;
    }
    assert rs[..i] == rs;
    r := Success(cleaned + multiPosPred);
  }
}
