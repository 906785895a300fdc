# Fantasy-football draft bookkeeping, modelled in Dafny

This project models the in-memory core of a personal fantasy-football draft
assistant, written in Python 2, and proves properties of that model. It has
four parts.

- **Live draft state** (`ffldraft.py`, class `DraftData`):
  - Python's stable sort of the prediction list by (`F TEAM`, `POS`, `-PTS`);
  - the `repl_val` pass, which writes the point gap to the next record of the same position;
  - the `top_n` query (filter, sort by points, Python slice);
  - the lookup of players by name initials and the rank prompt over it;
  - `been_drafted`, which relabels the picked records;
  - `team_draft_summary`, which puts each team's drafted players into roster
    slots greedily, then into `flex_<i>` entries;
  - the `TOTAL`s, per-slot averages and deviations that `state_of_draft` plots.
- **Projection-row cleaning** (`getdraftdata.py`):
  - a scraped row becomes a header-to-cell dict;
  - the combined `PLAYER, TEAM POS` cell is split into `FIRST`, `LAST`, `TEAM`
    and `POS`, with the team of a defence found through the mascot table;
  - `TYPE` becomes `F TEAM`;
  - a multi-position player is fanned out into copies, which are written after
    all originals.
- **League CSV assembly** (`LeagueStats/statgrab.py`):
  - the column-name constants;
  - `update_basics` and `update_scores`, which fill a shared `defaultdict`;
  - the row order of `write_to_csv`.
- **Score grouping** (`LeagueStats/TeamScoring.py`):
  - the loop of `getScores`, which builds per-team for/against lists and per-week lists of home scores;
  - the week-number parse `int(el[el.find(' ') + 1:])`.

Modules, one file each:

- `Wrappers`: Option and Result. These model Python's `None` and its exceptions.
- `Text`: Python string operations the code relies on, with their laws:
  - lexicographic `<`, `lower`, `startswith`;
  - `find`, `split` and `join`;
  - `'{}'.format(n)` and `int(s)`;
  - `sorted` on a set of strings.
- `Players`: the `Player` record and Python's stable `sorted(key=...)`. The sort is an insertion sort, proved sorted, a permutation and stable.
- `Draft` and `Roster`: the pure specifications of the draft operations.
- `DraftState`: the class `DraftData`. It holds the prediction list as a field, and its methods replace it as the Python methods do. Each method is proved against the specification functions.
- `Prediction`: the cleaning pass of `getdraftdata.py`, as a method over values, proved against a per-row function.
- `StatGrab`: the header constants, and the class `LeagueTable`, which holds the `defaultdict` `d`.
- `TeamScoring`: `getScores` as a loop, proved against per-team and per-week reference definitions.

Modelling choices:

- The identity of a Python dict is modelled by an `id` field. `been_drafted`
  mutates the very records the lookup returned, so it relabels every record
  with one of their ids.
- Ids are assumed unique, as the identity of a dict is. Nothing in the model
  checks this, so records given the same id would be relabelled together.
- `PTS` are integers. The averages in `state_of_draft` use Python 2 integer
  division, which floors. Dafny's `/` agrees with it for a positive divisor.
- `repl_val` is `Option<int>`. The last record of the list keeps whatever it had before, as in the source.
- A `defaultdict` entry is created only when a value is written.
  - So a listed team with no slots to fill and no leftover players gets no
    `team_draft_summary` entry.
  - For these structures, `d[t]` denotes the empty dict when `t` is absent.
- `posVals[pos].append(bestAtPos['PTS'])` creates the key before the
  `KeyError` that an empty slot `{}` raises.
  - So a key that is empty for every team still gets an average, and that average is 0.
- The order in which the source iterates a dict becomes a sequence parameter.
  This applies to `TEAMS.iteritems()`, the fetched score rows, and the team
  list handed to `team_draft_summary`.
- A game score is `Pts(int)` or the `Box` marker. The fetch gives floats
  (`float(el)`, LeagueStats/FFFetch.py:117). `update_scores` and `getScores`
  only copy these values and compute nothing from them, so integers lose nothing here.
- The last free agent at a position gets its gap to the next record when that
  record has the same position, even a drafted player of another fantasy team.
  The gap test compares `POS` only (ffldraft.py:280). `Draft.RunBoundaryGap`
  shows such a case with a positive gap.
- Everything the source reads from the network, a file or the keyboard becomes a parameter:
  - the scraped header and cell lists;
  - the fetched score rows;
  - the typed ranks, a list of answers that may run out.

## Model

| member | source | states |
|---|---|---|
| DraftState.DraftData.constructor | ffldraft.py:87-89 | the new object's list is the loaded list, sorted and with its replacement values |
| DraftState.DraftData.SortPredictionVals | ffldraft.py:136-143 | the field becomes the stable sort of its old value by (`F TEAM`, `POS`, `-PTS`) |
| Draft.SortPredictionsSpec | ffldraft.py:141-143 | the sorted list is a permutation of the input, ordered by team, then position, then points descending; records with equal keys keep their input order |
| Draft.PredictionLeTotalPreorder | ffldraft.py:141-143 | comparing the keys (`F TEAM`, `POS`, `-PTS`) is total and transitive |
| Players.SortBySorted | ffldraft.py:141-143 | `sorted` with a total-preorder key yields a sorted list |
| Players.SortByStable | ffldraft.py:141-143 | for every key class, the sorted list holds that class's elements in input order (stability) |
| Players.SortBySortedIdentity | ffldraft.py:290 | sorting an already sorted list changes nothing |
| DraftState.DraftData.UpdateReplacementValue | ffldraft.py:270-282 | the field becomes the replacement values of the sorted old list |
| DraftState.WriteReplacementValues | ffldraft.py:277-282 | the index loop writes exactly the specified replacement values |
| Draft.ReplacementValuesAt | ffldraft.py:277-282 | record i < n-1 gets `PTS[i+1] - PTS[i]` when the positions agree, else 0; the last record is unchanged |
| Draft.ReplacementValuesInRunNonPositive | ffldraft.py:280-282 | in a sorted list, for every i whose successor has the same `F TEAM` and `POS`, the `repl_val` written at i is at most 0 |
| Draft.RunBoundaryGap | ffldraft.py:280-282 | the gap test compares `POS` only: the last free agent at a position gets a positive gap to a better drafted player of that position on the next fantasy team |
| Draft.UpdatedRunNonPositive | ffldraft.py:275-282 | the same, for the list `update_replacement_value` produces from any input |
| Draft.ReplacementValuesStaySorted | ffldraft.py:275-290 | writing `repl_val` keeps the list sorted, so the re-sort in `top_n` is the identity |
| DraftState.DraftData.TopN | ffldraft.py:284-297 | the field is re-sorted and the result is the top-N query over it |
| Draft.SliceTo | ffldraft.py:297 | Python `s[:n]`: its length for positive, zero and negative n, and it is a prefix |
| Draft.TopNSelected | ffldraft.py:291-297 | every returned record is in the list and passes the position / free-agent / team filter, at most as often as it occurs |
| Draft.TopNOrdered | ffldraft.py:297 | the result is in descending points |
| Draft.TopNKeepsBest | ffldraft.py:297 | no matching record left out has more points than a returned one |
| Draft.TopNLength | ffldraft.py:296-297 | the length is min(N, #matches); N of None or 0 means all; negative N drops from the end |
| Players.FilterMultiset | ffldraft.py:291-294 | a filter keeps each element exactly as often as it occurs when it passes, else never |
| Players.FilterSorted | ffldraft.py:155-162 | filtering a sorted list keeps it sorted |
| DraftState.DraftData.MatchingPlayers | ffldraft.py:154-164 | the matches are the lookup of the current list |
| DraftState.CollectMatches | ffldraft.py:155-162 | the scan appends exactly the records that pass the match test, in list order |
| Draft.LookupSpec | ffldraft.py:154-162 | the matches are exactly the records whose FIRST/LAST start with the initials ignoring case and that are FA unless drafted players are allowed; each keeps its multiplicity; they are in RNK order |
| Text.Lower | ffldraft.py:157-158 | `lower()` maps every character and keeps the length |
| DraftState.DraftData.GetPlayerInteractive | ffldraft.py:146-178 | the prompt reads answers until one is 0 or a listed rank; it returns None for 0 and every match with that rank otherwise; it reports when the answers run out |
| DraftState.AskRank | ffldraft.py:165-178 | the same loop over a given match list |
| Draft.ChooseRankSpec | ffldraft.py:165-173 | 0 chooses none; a listed rank chooses a non-empty list of exactly the matches with that rank, so duplicates of one player come together; any other number is rejected |
| DraftState.DraftData.BeenDrafted | ffldraft.py:215-222 | the field becomes the relabelled list, sorted and with new replacement values |
| DraftState.MoveToTeam | ffldraft.py:217-218 | the loop over the picked players gives the relabelled list |
| Draft.RelabelSpec | ffldraft.py:217-218 | exactly the records sharing an identity with a picked player get `F TEAM := teamName`; every other record is unchanged |
| DraftState.DraftData.TeamDraftSummary | ffldraft.py:435-480 | the nested loops build exactly the specified summary |
| DraftState.CollectPools | ffldraft.py:440-445 | the first loop builds the specified per-team lists |
| Roster.InitialPoolsSpec | ffldraft.py:440-445 | each team's list is its drafted players in list order |
| DraftState.FillTeam | ffldraft.py:453-478 | one team's pass: single slots, combo slots, then flex; `written` tells whether the team's dict got a key |
| DraftState.FillSlots | ffldraft.py:454-472 | the slot loops fill the specified slots |
| DraftState.FillFlex | ffldraft.py:477-478 | the flex loop adds `flex_<i>` for the i-th leftover |
| Roster.Singles | ffldraft.py:451-452 | the single positions are exactly the non-combo entries of the list; `D/ST` is single |
| Roster.Combos | ffldraft.py:451 | the combo positions are exactly the entries with a `/` other than `D/ST` |
| Roster.SlotOrderPermutation | ffldraft.py:451-452 | singles followed by combos reorder the position list without loss |
| Roster.BestIndex | ffldraft.py:456-457 | `max(..., key=PTS)`: an index of a candidate with the most points, and no earlier candidate ties it; None when there is no candidate |
| Roster.Choose | ffldraft.py:455-472 | a slot takes a most-points candidate of its component positions and removes it from the pool; it is `{}` and the pool is unchanged when there is none |
| Roster.SingleSlotSpec | ffldraft.py:454-462 | a single slot holds a max-points drafted player of exactly that position, or `{}` when the team has none |
| Roster.ComboSlotSpec | ffldraft.py:464-472 | a combo slot holds a max-points player among those not placed before it whose position is a component, or `{}` when there is none |
| Roster.PlaceSlotsFacts | ffldraft.py:453-472 | the pool left plus the players placed in slots is the team's pool, as a multiset |
| Roster.TeamStepFlex | ffldraft.py:477-478 | `flex_i` is the i-th leftover in descending points |
| Roster.TotalPlusFlex | ffldraft.py:357-360 | a team's `TOTAL` is the points of all its drafted players less those of its flex players, so every drafted player lands in exactly one slot |
| Roster.RunTeamsSpec | ffldraft.py:453-478 | after the team loop, a team has a dict iff it is listed and something was written; that dict is its own pass over its drafted players |
| Roster.DraftSummarySpec | ffldraft.py:435-480 | the summary holds a team iff it is listed and has slots or leftovers; its dict is its pass over its drafted players |
| Roster.TeamListSpec | ffldraft.py:353 | the team list is distinct and holds exactly the non-FA fantasy teams |
| Roster.DraftingTeams | ffldraft.py:353 | the list built by inserting each drafted player's team is strictly increasing and holds exactly the non-FA fantasy teams |
| Roster.DraftingTeamsIsTeamList | ffldraft.py:353 | that list is `sorted` of the set of non-FA fantasy teams |
| DraftState.DraftData.StateOfDraft | ffldraft.py:350-377 | the method computes the sorted team list itself; the summary with totals, the averages and the deviations equal the specification |
| DraftState.AddTotals | ffldraft.py:357-360 | the loop adds `TOTAL` to every team, in any order |
| Roster.WithTotals | ffldraft.py:357-360 | adding totals keeps the set of teams |
| Roster.TeamSummaryEntry | ffldraft.py:357-360 | each team's `TOTAL` is the sum over its non-flex slots of the team's pass, with empty slots counting 0 |
| Roster.TeamTotalDistinct | ffldraft.py:357-360 | for distinct non-flex keys the total is the plain sum over the position list |
| Roster.AvVals | ffldraft.py:363-372 | there is one average per key that any team has |
| Roster.AverageBounds | ffldraft.py:371 | a floored average lies between the least and the greatest value |
| Roster.DeviationsFromAverage | ffldraft.py:371-377 | the deviations from a floored average add up to at least 0 and less than the count |
| Roster.BinVals | ffldraft.py:375-377 | there is one deviation per team and per averaged key |
| Roster.BinValsAreDeviations | ffldraft.py:363-377 | the deviations of the teams that fill a key are exactly the deviations of `posVals` from that key's average |
| Roster.FilledAreDeviations | ffldraft.py:363-377 | the same, for any table of points less an average |
| Text.SortedStrings | ffldraft.py:353 | `sorted` of a set of strings: each element once, in strictly increasing order |
| Text.InsertString | ffldraft.py:353 | inserting into a strictly increasing list keeps it strictly increasing and adds exactly the new element |
| Text.SortedUnique | ffldraft.py:353 | two strictly increasing lists with the same elements are equal |
| Prediction.ZipRecordKeys | getdraftdata.py:143 | the keys are the headers up to the shorter of the two lists |
| Prediction.ZipRecordAt | getdraftdata.py:143 | header i maps to cell i when no later header repeats it |
| Prediction.EspnGetPredictionCells | getdraftdata.py:131-143 | with distinct headers, row i maps header k to cell k |
| Prediction.CleanRecordFailure | getdraftdata.py:171-189 | cleaning raises iff: the combined cell is missing, it splits into fewer than two pieces, the name/team split fails, or `TYPE` is missing |
| Prediction.CleanRecordColumns | getdraftdata.py:173-189 | the combined cell and `TYPE` are removed; FIRST, LAST, TEAM, POS and F TEAM are set; F TEAM is the old TYPE; every other column is unchanged |
| Prediction.CleanRecordPieces | getdraftdata.py:174 | pt and pos are the first two pieces of the cell split on the no-break space: neither holds one, and pt, the space and pos begin the cell |
| Prediction.CleanRecordTeam | getdraftdata.py:176-181 | A defence keeps the whole text as its name, and its team is the mascot table's entry for the first word. Any other record splits on ", " into exactly name and team |
| Prediction.CleanRecordName | getdraftdata.py:183-185 | FIRST has no space; FIRST + " " + LAST is the name when it has a space; otherwise FIRST is the name and LAST is empty |
| Prediction.NameWords | getdraftdata.py:183-185 | the first word and the rest rejoined by single spaces give back the name |
| Prediction.CleanRecordPositions | getdraftdata.py:192-199 | the original gets the first position; there is one copy per further position, identical except for POS; the positions rejoin to the pos text |
| Prediction.CleanAllSpec | getdraftdata.py:171-199 | the pass succeeds iff every row cleans; then result i is row i cleaned; otherwise the error is that of the first failing row |
| Prediction.CollectValues | getdraftdata.py:171-199 | on success, entry i is the value of row i |
| Prediction.CollectFirstFailure | getdraftdata.py:171-199 | a failure is the first failing row's error |
| Prediction.CleanPlayer | getdraftdata.py:172-199 | the in-place steps on one row give the specified record, or the error, and append its copies |
| Prediction.AppendCopies | getdraftdata.py:193-199 | the position loop appends exactly the copies |
| Prediction.CleanPredictions | getdraftdata.py:168-206 | the loop fails iff the pass fails, with the same error; otherwise it yields the specified output |
| Text.JoinSplit | getdraftdata.py:183-185 | `sep.join(s.split(sep)) == s` |
| Text.SplitPiecesAvoidSeparator | getdraftdata.py:174 | no piece of a split contains the separator |
| Text.SplitFirstTwo | getdraftdata.py:174 | the first two pieces with the separator between them are a prefix of the string |
| StatGrab.ProductAt | LeagueStats/statgrab.py:34-38 | in the nested comprehension, entry k·m+j is period k with suffix j (periods outer) |
| StatGrab.HeaderCounts | LeagueStats/statgrab.py:31-65 | there are 3·(W+P) = 51 score headers, 9·(W+P) = 153 starter headers and 213 CSV headers |
| StatGrab.ScoreHeaderAt | LeagueStats/statgrab.py:34-43 | score header 3k+j is period k followed by OP / PTS FOR / PTS AGAINST |
| StatGrab.StartersHeaderAt | LeagueStats/statgrab.py:53-60 | starter header 9k+j is period k, a space and position j |
| StatGrab.CsvHeadersLayout | LeagueStats/statgrab.py:62-65 | the CSV headers are the identity columns, then standings, then scores, then starters |
| StatGrab.PeriodWeekNumber | LeagueStats/statgrab.py:34-38 | a week's period parses back to its week number under the week parse |
| StatGrab.PeriodPlayoffs | LeagueStats/statgrab.py:39-43 | a playoff period does not parse as a week number |
| StatGrab.BlankRecord | LeagueStats/statgrab.py:100 | the blank record has exactly the CSV headers as keys |
| StatGrab.BasicRecordSpec | LeagueStats/statgrab.py:100-104 | a team's record has exactly the CSV headers; the four identity columns are set and every other column is `''` |
| StatGrab.WriteBasics | LeagueStats/statgrab.py:100-104 | the five writes of one pass put that record under the team name |
| StatGrab.LeagueTable.constructor | LeagueStats/statgrab.py:74 | the table starts empty |
| StatGrab.LeagueTable.UpdateBasics | LeagueStats/statgrab.py:95-106 | the table becomes the fold of one record per team, in iteration order |
| StatGrab.BasicsLast | LeagueStats/statgrab.py:99-104 | a team not named again later ends with its basic record |
| StatGrab.BasicsFrame | LeagueStats/statgrab.py:99-104 | an entry no team names is kept, and an absent one stays absent |
| StatGrab.LeagueTable.UpdateScores | LeagueStats/statgrab.py:109-129 | the table becomes the fold of the games over the rows |
| StatGrab.ScoresSkipBox | LeagueStats/statgrab.py:118-119 | updating with all rows is the same as writing the games of the non-`Box` rows |
| StatGrab.WriteGameScores | LeagueStats/statgrab.py:121-127 | each side's OP is the other team, its PTS FOR its own score and its PTS AGAINST the other's; for a team playing itself the away writes win |
| StatGrab.WriteGameFrame | LeagueStats/statgrab.py:121-127 | the two teams get entries; every other team and every other column are untouched |
| StatGrab.GameKeysDistinct | LeagueStats/statgrab.py:121-127 | a week's three columns are different |
| StatGrab.ScoresFrame | LeagueStats/statgrab.py:115-127 | a team that no non-`Box` row names keeps its record, or stays absent |
| StatGrab.RealTeams | LeagueStats/statgrab.py:204-205 | the names kept are exactly those other than AV and STD |
| StatGrab.RealTeamsSorted | LeagueStats/statgrab.py:199-205 | leaving names out keeps the order strictly increasing |
| StatGrab.TeamOrder | LeagueStats/statgrab.py:199-205 | the team rows' names are exactly the table's real teams, in strictly increasing order |
| StatGrab.CsvRowOfTeam | LeagueStats/statgrab.py:204-206 | team row i is the record of the i-th team in name order |
| TeamScoring.GetScores | LeagueStats/TeamScoring.py:37-54 | the keys are exactly the teams and weeks named; each team's lists are its own and its opponents' scores in row order; each week's list is its home scores in row order |
| TeamScoring.AddGameAt | LeagueStats/TeamScoring.py:40-48 | one row creates the missing entries and appends to exactly the home and away lists |
| TeamScoring.ScoreDicSpec | LeagueStats/TeamScoring.py:37-48 | the team dict has exactly the named teams, each with its reference for/against lists |
| TeamScoring.LeagueScoresSpec | LeagueStats/TeamScoring.py:50-54 | the week dict has exactly the named weeks, each with its home scores |
| TeamScoring.ForAgainstLength | LeagueStats/TeamScoring.py:37-48 | `len(for) == len(against)` is the number of rows a team appears in, counting twice when it plays itself |
| TeamScoring.WeekScoresLength | LeagueStats/TeamScoring.py:50-54 | a week's list is as long as that week's number of rows |
| TeamScoring.RowMirror | LeagueStats/TeamScoring.py:45-48 | a row adds home's score to home.for and away.against, and away's to away.for and home.against |
| TeamScoring.RowFrame | LeagueStats/TeamScoring.py:45-48 | a row leaves every other team's lists alone |
| TeamScoring.AbsentTeam | LeagueStats/TeamScoring.py:40-43 | a team named in no row has empty lists |
| TeamScoring.AbsentWeek | LeagueStats/TeamScoring.py:50-52 | a week named in no row has no scores |
| TeamScoring.WeekNumberOfLabel | LeagueStats/TeamScoring.py:74 | the text after the first space of `WEEK n` parses to n |
| TeamScoring.PlayoffLabelNotAWeek | LeagueStats/TeamScoring.py:74 | on `ROUND n - PLAYOFFS` the parse raises |
| TeamScoring.RoundLabelFirstSpace | LeagueStats/TeamScoring.py:74 | the first space of a round label is at index 5, and the number follows it |
| TeamScoring.DigitsThenSpaceNotInt | LeagueStats/TeamScoring.py:74 | digits followed by a space and more text are not an integer |
| Text.ParseIntDecimal | LeagueStats/TeamScoring.py:74 | `int(str(n)) == n` |
| Text.DigitsValueOfDecimal | LeagueStats/TeamScoring.py:74 | the digits of n read back as n |

## Left out

- Network and HTML scraping. This covers all of `LeagueStats/FFFetch.py` and,
  in `getdraftdata.py`, `espn_prediction_pages`, `espn_get_url_next` and
  `espn_get_prediction_headers`. The header list and the cell texts become
  parameters of `EspnGetPrediction`, and the fetched score rows become the
  input sequence.
- CSV reading and writing. `load_prediction_data` (ffldraft.py:97-134) is
  not modelled; the constructor takes the loaded list. Its float fallback and
  its double `pop('Player')`, which raises `KeyError`, are left out with it.
  The file write of the cleaning pass keeps only the row order. Its field
  names, `pred[0].keys()`, are not modelled.
- Interactive prompts. The typed rank is a list of answers. Parsing typed
  text as `int` (ffldraft.py:168), `get_team_interactive`,
  `new_draft_interactive`, `false_draft_interactive` and
  `simulate_draft_from_file` are not modelled. When 0 is chosen,
  `get_team_interactive` returns `None`; `new_draft_interactive` then indexes
  `LEAGUE_TEAMS[None]` (ffldraft.py:206-207), and `false_draft_interactive`
  passes `None` to `been_drafted` (ffldraft.py:211-213).
- Plotting: `show_best_replacement_available`, `state_of_position`, the bar
  charts of `state_of_draft` and `LeagueStats/mytreemap.py`. The
  `bestAvailable` query of `state_of_draft` only feeds the plot.
- Floating point and scipy: `LeagueStats/statparse.py`, `calc_avs_stds`,
  and the av/std/difFor part of `getScores` after line 56. The week parse at
  line 74 is kept.
- `update_standings` and `update_position_scores` in `LeagueStats/statgrab.py`
  fetch and parse pages; they are not part of this model.
- `FFLDraft.py` is an earlier copy of `ffldraft.py` that cannot run, and
  `LeagueStats/FFLTeams.py` is constant data; neither is modelled.
  `FantasyTeam` keeps only the three fields `update_basics` reads.
- Dict iteration order is not modelled. Where the source iterates a dict
  (`TEAMS.iteritems()`, the rows of the fetch, `teamSummary.items()`), the
  model takes a sequence in some order.
- Strings are sequences of characters. `lower()` maps only `A`-`Z`, and
  `int()` accepts only ASCII digits and whitespace. Python 2's byte/unicode
  distinction is not modelled.
- Slot keys are a datatype, so `flex_<i>` and `TOTAL` cannot clash with a
  position named `flex_0` or `TOTAL`. In the source these are one dict key
  (ffldraft.py:360, 478), and such a position would be overwritten. `POS_LIST`
  has no position with such a name.
- Roster.SingleSlotSpec: states that the slot holds a player with the most
  points of its position. It does not say which of several tied players that
  is; `Roster.BestIndex` states that the first one is chosen, as Python's
  `max` does.
- StatGrab.CsvHeadersLayout: states the four blocks of the header list. It
  does not prove that the 213 headers are distinct, so `BlankRecord`'s key
  set is stated through membership only.
- The statgrab module statement `from TeamScoring import get_scores`
  (statgrab.py:21) names a function that does not exist. `FFFetch.fetch` is
  called with an argument it does not accept (statgrab.py:156). Both are
  outside the modelled operations.
