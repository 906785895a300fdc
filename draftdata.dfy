/** The `DraftData` object of `ffldraft.py`: it owns the prediction list and
    updates it in place as picks come in. */
module DraftState {
  import opened Wrappers
  import opened Text
  import opened Players
  import opened Draft
  import opened Roster

  /** One answer to "which rank is correct?": the players it selects, or
      Found(None) for "none of the above". */
  datatype Prompt = Found(players: Option<seq<Player>>) | Exhausted

  class DraftData {
    var predictionData: seq<Player>

    /** Takes the loaded prediction list and runs the replacement-value pass,
        which sorts it first. */
    constructor (data: seq<Player>)
      ensures predictionData == ReplacementValues(SortPredictions(data))
    {
      predictionData := data;
      new;
      UpdateReplacementValue();
    }

    method SortPredictionVals()
      modifies this
      ensures predictionData == SortPredictions(old(predictionData))
    {
      predictionData := SortPredictions(predictionData);
    }

    /** Sorts, then writes into every record but the last the point gap to the
        record after it (0 across a change of position). */
    method UpdateReplacementValue()
      modifies this
      ensures predictionData == ReplacementValues(SortPredictions(old(predictionData)))
    {
      SortPredictionVals();
      predictionData := WriteReplacementValues(predictionData);
    }

    /** `top_n`: sorts the list in place, then returns the best matching
        players by points. */
    method TopN(n: Option<int>, pos: Option<string>, isFA: Option<bool>, onTeam: Option<string>)
      returns (r: seq<Player>)
      modifies this
      ensures predictionData == SortPredictions(old(predictionData))
      ensures r == TopNOf(predictionData, n, pos, isFA, onTeam)
    {
      SortPredictionVals();
      r := TopNOf(predictionData, n, pos, isFA, onTeam);
    }

    /** The lookup loop of `get_player_interactive`: walks the list in rank
        order and keeps the players matching the initials. */
    method MatchingPlayers(firstInit: string, lastInit: string, allowDrafted: bool) returns (matches: seq<Player>)
      ensures matches == Lookup(predictionData, firstInit, lastInit, allowDrafted)
    {
      matches := CollectMatches(SortBy(predictionData, RnkLe), firstInit, lastInit, allowDrafted);
    }

    /** `get_player_interactive` with the typed ranks given as a list: the
        prompt repeats until an answer is 0 or a listed rank. Gives the
        selected players and how many answers were read; running out of
        answers is where the program would wait for more input. */
    method GetPlayerInteractive(firstInit: string, lastInit: string, allowDrafted: bool, answers: seq<int>)
      returns (result: Prompt, read: nat)
      ensures read <= |answers|
      ensures forall j :: 0 <= j < read - 1 ==> ChooseRank(Lookup(predictionData, firstInit, lastInit, allowDrafted), answers[j]).NotAValidRank?
      ensures result.Exhausted? <==> read == |answers| && forall j :: 0 <= j < |answers| ==> ChooseRank(Lookup(predictionData, firstInit, lastInit, allowDrafted), answers[j]).NotAValidRank?
      ensures result.Found? ==> 0 < read && match ChooseRank(Lookup(predictionData, firstInit, lastInit, allowDrafted), answers[read - 1])
                                             case NoneOfTheAbove => result.players == None
                                             case Chosen(ps) => result.players == Some(ps)
                                             case NotAValidRank => false
    {
      var matches := MatchingPlayers(firstInit, lastInit, allowDrafted);
      result, read := AskRank(matches, answers);
    }

    /** `been_drafted`: moves the picked records to `teamName`, then redoes the
        replacement values. */
    method BeenDrafted(players: seq<Player>, teamName: string)
      modifies this
      ensures predictionData == ReplacementValues(SortPredictions(Relabel(old(predictionData), players, teamName)))
    {
      predictionData := MoveToTeam(predictionData, players, teamName);
      UpdateReplacementValue();
    }

    /** `team_draft_summary`: collects each team's drafted players, then for
        every listed team fills the single slots, the combination slots and the
        flex entries. */
    method TeamDraftSummary(posList: seq<string>, teamList: seq<string>) returns (tdsBucket: map<string, Bucket>)
      ensures tdsBucket == DraftSummary(predictionData, posList, teamList)
    {
      var data := predictionData;
      var tds := CollectPools(data);
      tdsBucket := map[];
      var k := 0;
      while k < |teamList|
        invariant 0 <= k <= |teamList|
        invariant tds == RunTeams(data, posList, teamList[..k]).pools
        invariant tdsBucket == RunTeams(data, posList, teamList[..k]).buckets
      {
        var team := teamList[k];
        RunTeamsAt(data, posList, teamList, k);
        ghost var next := RunTeams(data, posList, teamList[..k + 1]);
        var pool, bucket, written := FillTeam(PoolOf(tds, team), BucketOf(tdsBucket, team), posList);
        tds := tds[team := pool];
        assert tds == next.pools;
        if written {
          tdsBucket := tdsBucket[team := bucket];
        }
        assert tdsBucket == next.buckets;
        k := k + 1;
      }
      assert teamList[..k] == teamList;
    }

    /** The computations of `state_of_draft` that feed its plot: the summary
        with a `TOTAL` per team, the average at every key, and each team's
        deviation from it, over the sorted list of drafting teams. */
    method StateOfDraft(posList: seq<string>)
      returns (teamSummary: map<string, Bucket>, avVals: map<SlotKey, int>, binVals: map<string, map<SlotKey, int>>)
      ensures (teamSummary, avVals, binVals) == Roster.StateOfDraft(predictionData, posList)
    {
      var teamList := DraftingTeams(predictionData);
      DraftingTeamsIsTeamList(predictionData);
      var summary := TeamDraftSummary(posList, teamList);
      teamSummary := AddTotals(summary, posList);
      avVals := AvVals(teamSummary, teamList);
      binVals := BinVals(teamSummary, avVals);
    }
  }

  /** The rank prompt of `get_player_interactive` over the printed matches. */
  method AskRank(matches: seq<Player>, answers: seq<int>) returns (result: Prompt, read: nat)
    ensures read <= |answers|
    ensures forall j :: 0 <= j < read - 1 ==> ChooseRank(matches, answers[j]).NotAValidRank?
    ensures result.Exhausted? <==> read == |answers| && forall j :: 0 <= j < |answers| ==> ChooseRank(matches, answers[j]).NotAValidRank?
    ensures result.Found? ==> 0 < read && match ChooseRank(matches, answers[read - 1])
                                           case NoneOfTheAbove => result.players == None
                                           case Chosen(ps) => result.players == Some(ps)
                                           case NotAValidRank => false
  {
    var validRanks := Ranks(matches);
    read := 0;
    while read < |answers|
      invariant read <= |answers|
      invariant forall j :: 0 <= j < read ==> ChooseRank(matches, answers[j]).NotAValidRank?
    {
      var r := answers[read];
      read := read + 1;
      if r == 0 {
        return Found(None), read;
      } else if r in validRanks {
        return Found(Some(Filter(matches, HasRank(r)))), read;
      }
    }
    result := Exhausted;
  }

  /** The replacement-value loop over an already sorted list. */
  method WriteReplacementValues(sorted: seq<Player>) returns (data: seq<Player>)
    ensures data == ReplacementValues(sorted)
  {
    data := sorted;
    var i := 0;
    while i + 1 < |data|
      invariant |data| == |sorted|
      invariant 0 <= i <= |sorted| && (|sorted| > 0 ==> i < |sorted|)
      invariant forall j {:trigger data[j]} :: 0 <= j < i ==> data[j] == sorted[j].(replVal := Some(Gap(sorted[j], sorted[j + 1])))
      invariant forall j :: i <= j < |sorted| ==> data[j] == sorted[j]
    {
      var pNow, pNext := data[i], data[i + 1];
      var replVal := if pNow.pos == pNext.pos then pNext.pts - pNow.pts else 0;
      data := data[i := pNow.(replVal := Some(replVal))];
      i := i + 1;
    }
    forall j | 0 <= j < |sorted| ensures data[j] == ReplacementValues(sorted)[j] {
      ReplacementValuesAt(sorted, j);
    }
  }

  /** The loop of the lookup over the rank-ordered list. */
  method CollectMatches(ranked: seq<Player>, firstInit: string, lastInit: string, allowDrafted: bool)
    returns (matches: seq<Player>)
    ensures matches == Filter(ranked, EligibleTo(firstInit, lastInit, allowDrafted))
  {
    var keep := EligibleTo(firstInit, lastInit, allowDrafted);
    matches := [];
    var i := 0;
    while i < |ranked|
      invariant 0 <= i <= |ranked|
      invariant matches == Filter(ranked[..i], keep)
    {
      var player := ranked[i];
      FilterStep(ranked, i, keep);
      if Eligible(player, firstInit, lastInit, allowDrafted) {
        matches := matches + [player];
      }
      i := i + 1;
    }
    assert ranked[..i] == ranked;
  }

  /** `player['F TEAM'] = teamName` for each picked player, applied to the
      records of the list with the same identity. */
  method MoveToTeam(start: seq<Player>, players: seq<Player>, teamName: string) returns (data: seq<Player>)
    ensures data == Relabel(start, players, teamName)
  {
    data := start;
    forall j | 0 <= j < |start| ensures data[j] == Relabel(start, [], teamName)[j] {
      RelabelSpec(start, [], teamName, j);
    }
    var k := 0;
    while k < |players|
      invariant 0 <= k <= |players|
      invariant data == Relabel(start, players[..k], teamName)
    {
      var id := players[k].id;
      var before := data;
      data := seq(|before|, j requires 0 <= j < |before| =>
        if before[j].id == id then before[j].(fTeam := teamName) else before[j]);
      assert Ids(players[..k + 1]) == Ids(players[..k]) + {id} by {
        assert players[..k + 1] == players[..k] + [players[k]];
      }
      forall j | 0 <= j < |start| ensures data[j] == Relabel(start, players[..k + 1], teamName)[j] {
        RelabelSpec(start, players[..k], teamName, j);
        RelabelSpec(start, players[..k + 1], teamName, j);
      }
      k := k + 1;
    }
    assert players[..k] == players;
  }

  /** The first loop of `team_draft_summary`: every drafted player appended
      to its team's list. */
  method CollectPools(data: seq<Player>) returns (tds: map<string, seq<Player>>)
    ensures tds == InitialPools(data)
  {
    tds := map[];
    var i := 0;
    while i < |data|
      invariant 0 <= i <= |data|
      invariant tds == InitialPools(data[..i])
    {
      var player := data[i];
      if player.fTeam != FreeAgent {
        tds := tds[player.fTeam := PoolOf(tds, player.fTeam) + [player]];
      }
      assert data[..i + 1][..i] == data[..i];
      i := i + 1;
    }
    assert data[..i] == data;
  }

  /** The body of the team loop of `team_draft_summary` for one team: the
      single slots, the combination slots, then the flex entries; `written`
      tells whether the team's dict received any key. */
  method FillTeam(pool0: seq<Player>, bucket0: Bucket, posList: seq<string>)
    returns (pool: seq<Player>, bucket: Bucket, written: bool)
    ensures (pool, bucket) == TeamStep(pool0, bucket0, posList)
    ensures written <==> SlotOrder(posList) != [] || pool != []
  {
    var slots := Singles(posList) + Combos(posList);
    var placed;
    pool, placed := FillSlots(pool0, bucket0, slots);
    var flex := SortBy(pool, PtsDescLe);
    bucket := FillFlex(placed, flex);
    written := slots != [] || flex != [];
  }

  /** The slot loops: each slot takes the best player left for it. */
  method FillSlots(pool0: seq<Player>, bucket0: Bucket, slots: seq<string>) returns (pool: seq<Player>, bucket: Bucket)
    ensures (pool, bucket) == PlaceSlots(pool0, bucket0, slots)
  {
    pool, bucket := pool0, bucket0;
    var s := 0;
    while s < |slots|
      invariant 0 <= s <= |slots|
      invariant pool == PlaceSlots(pool0, bucket0, slots[..s]).0
      invariant bucket == PlaceSlots(pool0, bucket0, slots[..s]).1
    {
      var pos := slots[s];
      PlaceSlotsAt(pool0, bucket0, slots, s);
      var chosen := Choose(pool, pos);
      pool, bucket := chosen.0, bucket[PosKey(pos) := chosen.1];
      s := s + 1;
    }
    assert slots[..s] == slots;
  }

  /** The flex loop: `flex_<i>` for the i-th leftover. */
  method FillFlex(placed: Bucket, flex: seq<Player>) returns (bucket: Bucket)
    ensures bucket == AddFlex(placed, flex)
  {
    bucket := placed;
    var f := 0;
    while f < |flex|
      invariant 0 <= f <= |flex|
      invariant bucket == AddFlex(placed, flex[..f])
    {
      bucket := bucket[FlexKey(f) := Filled(flex[f])];
      AddFlexAt(placed, flex, f);
      f := f + 1;
    }
    assert flex[..f] == flex;
  }

  /** The `TOTAL` loop of `state_of_draft`, over the teams of the summary in
      any order. */
  method AddTotals(summary: map<string, Bucket>, posList: seq<string>) returns (teamSummary: map<string, Bucket>)
    ensures teamSummary == WithTotals(summary, posList)
  {
    teamSummary := summary;
    ghost var done: set<string> := {};
    var todo := summary.Keys;
    while todo != {}
      invariant todo + done == summary.Keys && todo !! done
      invariant teamSummary.Keys == summary.Keys
      invariant forall t :: t in done ==> teamSummary[t] == WithTotal(summary[t], posList)
      invariant forall t :: t in todo ==> teamSummary[t] == summary[t]
      decreases todo
    {
      var team :| team in todo;
      var teamVals := summary[team];
      teamSummary := teamSummary[team := teamVals[TotalKey := Points(TeamTotal(teamVals, posList))]];
      todo, done := todo - {team}, done + {team};
    }
  }
}
