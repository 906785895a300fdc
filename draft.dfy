/** The pure parts of the live-draft bookkeeping in `ffldraft.py`: the
    ordering of the prediction list, replacement values, the top-N query,
    the player lookup by initials and the relabelling done by a draft pick. */
module Draft {
  import opened Wrappers
  import opened Text
  import opened Players

  // ---------------------------------------------------------------------
  // sort_prediction_vals: key (F TEAM, POS, -PTS)
  // ---------------------------------------------------------------------

  /** Python's comparison of the keys `(F TEAM, POS, -PTS)`: `p` sorts no later
      than `q`. */
  predicate PredictionLe(p: Player, q: Player) {
    || StrLt(p.fTeam, q.fTeam)
    || (p.fTeam == q.fTeam && (StrLt(p.pos, q.pos) || (p.pos == q.pos && p.pts >= q.pts)))
  }

  lemma PredictionLeTotalPreorder()
    ensures TotalPreorder(PredictionLe)
  {
    forall x: Player, y: Player ensures PredictionLe(x, y) || PredictionLe(y, x) {
      StrLtTrichotomy(x.fTeam, y.fTeam);
      StrLtTrichotomy(x.pos, y.pos);
    }
    forall x: Player, y: Player, z: Player | PredictionLe(x, y) && PredictionLe(y, z)
      ensures PredictionLe(x, z)
    {
      if StrLt(x.fTeam, y.fTeam) && StrLt(y.fTeam, z.fTeam) { StrLtTransitive(x.fTeam, y.fTeam, z.fTeam); }
      if x.fTeam == y.fTeam == z.fTeam && StrLt(x.pos, y.pos) && StrLt(y.pos, z.pos) {
        StrLtTransitive(x.pos, y.pos, z.pos);
      }
    }
  }

  /** `sorted(predictionData, key=lambda x: (x['F TEAM'], x['POS'], -x['PTS']))`. */
  function SortPredictions(s: seq<Player>): seq<Player> {
    SortBy(s, PredictionLe)
  }

  /** The sorted list is a permutation of the input, ordered by fantasy team,
      then position, then points descending, and players with the same key keep
      their input order. */
  lemma SortPredictionsSpec(s: seq<Player>)
    ensures multiset(SortPredictions(s)) == multiset(s)
    ensures forall i, j :: 0 <= i < j < |s| ==>
      var r := SortPredictions(s);
      || StrLt(r[i].fTeam, r[j].fTeam)
      || (r[i].fTeam == r[j].fTeam && StrLt(r[i].pos, r[j].pos))
      || (r[i].fTeam == r[j].fTeam && r[i].pos == r[j].pos && r[i].pts >= r[j].pts)
    ensures forall k :: EquivalentTo(SortPredictions(s), PredictionLe, k) == EquivalentTo(s, PredictionLe, k)
  {
    PredictionLeTotalPreorder();
    SortBySorted(s, PredictionLe);
    forall k ensures EquivalentTo(SortPredictions(s), PredictionLe, k) == EquivalentTo(s, PredictionLe, k) {
      SortByStable(s, PredictionLe, k);
    }
  }

  // ---------------------------------------------------------------------
  // update_replacement_value
  // ---------------------------------------------------------------------

  /** The replacement value written for `p` when `next` follows it: the point
      gap to the next player if both play the same position, else 0. */
  function Gap(p: Player, next: Player): int {
    if p.pos == next.pos then next.pts - p.pts else 0
  }

  /** The list after the `repl_val` pass over an (already sorted) list: each
      record but the last gets the gap to its successor. */
  function ReplacementValues(s: seq<Player>): (r: seq<Player>)
    ensures |r| == |s|
  {
    if |s| <= 1 then s
    else [s[0].(replVal := Some(Gap(s[0], s[1])))] + ReplacementValues(s[1..])
  }

  /** Record `i` of the result: the gap to record `i + 1` for every record but
      the last, whose `repl_val` is left as it was; nothing else changes. */
  lemma {:induction false} ReplacementValuesAt(s: seq<Player>, i: nat)
    requires i < |s|
    ensures ReplacementValues(s)[i]
         == if i + 1 < |s| then s[i].(replVal := Some(Gap(s[i], s[i + 1]))) else s[i]
  {
    if |s| > 1 && i > 0 {
      ReplacementValuesAt(s[1..], i - 1);
    }
  }

  /** Inside a run of players with the same fantasy team and position, points
      descend, so every replacement value written there is at most 0. */
  lemma ReplacementValuesInRunNonPositive(s: seq<Player>, i: nat)
    requires i + 1 < |s|
    requires Sorted(s, PredictionLe)
    requires s[i].fTeam == s[i + 1].fTeam && s[i].pos == s[i + 1].pos
    ensures ReplacementValues(s)[i].replVal.Some?
    ensures ReplacementValues(s)[i].replVal.value <= 0
  {
    ReplacementValuesAt(s, i);
    assert PredictionLe(s[i], s[i + 1]);
    StrLtIrreflexive(s[i].fTeam);
    StrLtIrreflexive(s[i].pos);
  }

  /** The gap test compares `POS` only, not `F TEAM`: at the end of a run, the
      last free agent at a position gets the gap to a drafted player of that
      position on the next fantasy team, which is positive when the drafted
      player scores more. */
  lemma RunBoundaryGap(s: seq<Player>)
    requires s == [Player(0, FreeAgent, "QB", 10, 2, "A", "B", "X", None),
                   Player(1, "T1", "QB", 300, 1, "C", "D", "Y", None)]
    ensures Sorted(s, PredictionLe) && s[0].fTeam != s[1].fTeam
    ensures ReplacementValues(s)[0].replVal == Some(290)
  {
    assert StrLt(s[0].fTeam, s[1].fTeam);
    ReplacementValuesAt(s, 0);
  }

  /** Writing replacement values does not touch the sort key, so the list
      stays in order and sorting it again changes nothing. */
  lemma ReplacementValuesStaySorted(s: seq<Player>)
    ensures Sorted(ReplacementValues(SortPredictions(s)), PredictionLe)
    ensures SortPredictions(ReplacementValues(SortPredictions(s))) == ReplacementValues(SortPredictions(s))
  {
    var sorted := SortPredictions(s);
    var r := ReplacementValues(sorted);
    PredictionLeTotalPreorder();
    SortBySorted(s, PredictionLe);
    forall i, j | 0 <= i < j < |r| ensures PredictionLe(r[i], r[j]) {
      ReplacementValuesAt(sorted, i);
      ReplacementValuesAt(sorted, j);
      assert PredictionLe(sorted[i], sorted[j]);
    }
    SortBySortedIdentity(r, PredictionLe);
  }

  /** The same, for the list `update_replacement_value` produces. */
  lemma UpdatedRunNonPositive(s: seq<Player>, i: nat)
    requires i + 1 < |s|
    requires SortPredictions(s)[i].fTeam == SortPredictions(s)[i + 1].fTeam
    requires SortPredictions(s)[i].pos == SortPredictions(s)[i + 1].pos
    ensures ReplacementValues(SortPredictions(s))[i].replVal.Some?
    ensures ReplacementValues(SortPredictions(s))[i].replVal.value <= 0
  {
    PredictionLeTotalPreorder();
    SortBySorted(s, PredictionLe);
    ReplacementValuesInRunNonPositive(SortPredictions(s), i);
  }

  // ---------------------------------------------------------------------
  // top_n
  // ---------------------------------------------------------------------

  /** The filter of `top_n`; a None argument does not constrain. */
  predicate Selected(p: Player, pos: Option<string>, isFA: Option<bool>, onTeam: Option<string>) {
    && (pos.None? || p.pos == pos.value)
    && (isFA.None? || (p.fTeam == FreeAgent) == isFA.value)
    && (onTeam.None? || p.fTeam == onTeam.value)
  }

  /** The key `-PTS`: higher points first. */
  predicate PtsDescLe(p: Player, q: Player) {
    p.pts >= q.pts
  }

  lemma PtsDescLeTotalPreorder()
    ensures TotalPreorder(PtsDescLe)
  {
  }

  /** Python's `s[:n]`, including a negative `n`, which drops the last `-n`
      elements. */
  function SliceTo(s: seq<Player>, n: int): (r: seq<Player>)
    ensures |r| == if n >= 0 then (if n < |s| then n else |s|) else (if |s| + n > 0 then |s| + n else 0)
    ensures r == s[..|r|]
  {
    if n >= 0 then (if n < |s| then s[..n] else s)
    else if |s| + n > 0 then s[..|s| + n] else []
  }

  /** The count `top_n` keeps: N when N is given and non-zero, else the length
      of the whole list. */
  function Limit(n: Option<int>, total: nat): int {
    if n.None? || n.value == 0 then total else n.value
  }

  /** The generator of `top_n`: the players passing the filter, in list order. */
  function Matching(data: seq<Player>, pos: Option<string>, isFA: Option<bool>, onTeam: Option<string>): seq<Player> {
    Filter(data, (p: Player) => Selected(p, pos, isFA, onTeam))
  }

  /** What `top_n` returns from the (already sorted) prediction list `data`. */
  function TopNOf(data: seq<Player>, n: Option<int>, pos: Option<string>, isFA: Option<bool>, onTeam: Option<string>): seq<Player> {
    SliceTo(SortBy(Matching(data, pos, isFA, onTeam), PtsDescLe), Limit(n, |data|))
  }

  /** `top_n` returns only players of the list that pass its filter, each at
      most as often as it passes. */
  lemma TopNSelected(data: seq<Player>, n: Option<int>, pos: Option<string>, isFA: Option<bool>, onTeam: Option<string>)
    ensures multiset(TopNOf(data, n, pos, isFA, onTeam)) <= multiset(Matching(data, pos, isFA, onTeam))
    ensures forall p :: p in TopNOf(data, n, pos, isFA, onTeam) ==> p in data && Selected(p, pos, isFA, onTeam)
  {
    var matching := Matching(data, pos, isFA, onTeam);
    var sorted := SortBy(matching, PtsDescLe);
    var r := SliceTo(sorted, Limit(n, |data|));
    SliceToSub(sorted, Limit(n, |data|));
    forall p | p in r ensures p in data && Selected(p, pos, isFA, onTeam) {
      assert p in multiset(r);
      assert p in multiset(matching);
    }
  }

  lemma SliceToSub(s: seq<Player>, n: int)
    ensures multiset(SliceTo(s, n)) <= multiset(s)
  {
    var r := SliceTo(s, n);
    assert s == r + s[|r|..];
  }

  /** `top_n` returns its players highest points first. */
  lemma TopNOrdered(data: seq<Player>, n: Option<int>, pos: Option<string>, isFA: Option<bool>, onTeam: Option<string>)
    ensures var r := TopNOf(data, n, pos, isFA, onTeam);
      forall i, j :: 0 <= i < j < |r| ==> r[i].pts >= r[j].pts
  {
    PtsDescLeTotalPreorder();
    SortBySorted(Matching(data, pos, isFA, onTeam), PtsDescLe);
  }

  /** No matching player that `top_n` leaves out has more points than one it
      returns. */
  lemma TopNKeepsBest(data: seq<Player>, n: Option<int>, pos: Option<string>, isFA: Option<bool>, onTeam: Option<string>)
    ensures var r := TopNOf(data, n, pos, isFA, onTeam);
      forall p, q :: p in multiset(Matching(data, pos, isFA, onTeam)) - multiset(r) && q in r ==> p.pts <= q.pts
  {
    var matching := Matching(data, pos, isFA, onTeam);
    var sorted := SortBy(matching, PtsDescLe);
    PtsDescLeTotalPreorder();
    SortBySorted(matching, PtsDescLe);
    var r := TopNOf(data, n, pos, isFA, onTeam);
    PrefixDominates(sorted, |r|);
  }

  lemma PrefixDominates(sorted: seq<Player>, k: nat)
    requires k <= |sorted| && Sorted(sorted, PtsDescLe)
    ensures forall p, q :: p in multiset(sorted) - multiset(sorted[..k]) && q in sorted[..k] ==> p.pts <= q.pts
  {
    var front, rest := sorted[..k], sorted[k..];
    SplitMultiset(sorted, k);
    forall p: Player, q: Player | p in multiset(rest) && q in front ensures p.pts <= q.pts {
      var a :| 0 <= a < |rest| && rest[a] == p;
      var b :| 0 <= b < |front| && front[b] == q;
      assert front[b] == sorted[b] && rest[a] == sorted[k + a];
      assert PtsDescLe(sorted[b], sorted[k + a]);
    }
  }

  /** `top_n` returns min(N, #matches) players for a positive N, all matches
      for N None or 0, and for a negative N all but the last -N. */
  lemma TopNLength(data: seq<Player>, n: Option<int>, pos: Option<string>, isFA: Option<bool>, onTeam: Option<string>)
    ensures var m := |Matching(data, pos, isFA, onTeam)|;
      |TopNOf(data, n, pos, isFA, onTeam)|
        == if n.None? || n.value == 0 then m
           else if n.value > 0 then (if n.value < m then n.value else m)
           else (if m + n.value > 0 then m + n.value else 0)
  {
  }

  // ---------------------------------------------------------------------
  // Player lookup of get_player_interactive
  // ---------------------------------------------------------------------

  /** Both names start with the typed initials, ignoring ASCII case. */
  predicate NameMatches(p: Player, firstInit: string, lastInit: string) {
    StartsWith(Lower(p.first), Lower(firstInit)) && StartsWith(Lower(p.last), Lower(lastInit))
  }

  predicate Eligible(p: Player, firstInit: string, lastInit: string, allowDrafted: bool) {
    NameMatches(p, firstInit, lastInit) && (allowDrafted || p.fTeam == FreeAgent)
  }

  predicate RnkLe(p: Player, q: Player) {
    p.rnk <= q.rnk
  }

  function EligibleTo(firstInit: string, lastInit: string, allowDrafted: bool): Player -> bool {
    (p: Player) => Eligible(p, firstInit, lastInit, allowDrafted)
  }

  /** The list of matches the lookup prints: the prediction list in `RNK`
      order, filtered by initials and, unless drafted players are allowed, by
      being a free agent. */
  function Lookup(data: seq<Player>, firstInit: string, lastInit: string, allowDrafted: bool): seq<Player> {
    Filter(SortBy(data, RnkLe), EligibleTo(firstInit, lastInit, allowDrafted))
  }

  /** The matches are exactly the eligible players, each as often as it occurs
      in the data, in ascending rank. */
  lemma LookupSpec(data: seq<Player>, firstInit: string, lastInit: string, allowDrafted: bool)
    ensures var r := Lookup(data, firstInit, lastInit, allowDrafted);
      && (forall p :: p in r <==> p in data && Eligible(p, firstInit, lastInit, allowDrafted))
      && (forall p :: multiset(r)[p] == if Eligible(p, firstInit, lastInit, allowDrafted) then multiset(data)[p] else 0)
      && (forall i, j :: 0 <= i < j < |r| ==> r[i].rnk <= r[j].rnk)
  {
    var ranked := SortBy(data, RnkLe);
    assert TotalPreorder(RnkLe);
    SortBySorted(data, RnkLe);
    FilterSorted(ranked, EligibleTo(firstInit, lastInit, allowDrafted), RnkLe);
    forall p ensures multiset(Lookup(data, firstInit, lastInit, allowDrafted))[p]
                  == if Eligible(p, firstInit, lastInit, allowDrafted) then multiset(data)[p] else 0 {
      FilterMultiset(ranked, EligibleTo(firstInit, lastInit, allowDrafted), p);
    }
    forall p ensures p in data <==> p in ranked {
      assert p in data <==> p in multiset(ranked);
    }
  }

  /** The answer to "which rank is correct?". */
  datatype RankChoice = NoneOfTheAbove | Chosen(players: seq<Player>) | NotAValidRank

  function Ranks(matches: seq<Player>): (r: seq<int>)
    ensures |r| == |matches| && forall i :: 0 <= i < |r| ==> r[i] == matches[i].rnk
  {
    seq(|matches|, i requires 0 <= i < |matches| => matches[i].rnk)
  }

  function HasRank(r: int): Player -> bool {
    (p: Player) => p.rnk == r
  }

  /** Rank 0 chooses none; a listed rank chooses every match with that rank;
      any other number is rejected (and the prompt repeats). */
  function ChooseRank(matches: seq<Player>, r: int): RankChoice {
    if r == 0 then NoneOfTheAbove
    else if r in Ranks(matches) then Chosen(Filter(matches, HasRank(r)))
    else NotAValidRank
  }

  /** A chosen rank yields a non-empty list of exactly the matches with that
      rank, so copies of one player that differ only in position come
      together. */
  lemma ChooseRankSpec(matches: seq<Player>, r: int)
    ensures ChooseRank(matches, r).NoneOfTheAbove? <==> r == 0
    ensures ChooseRank(matches, r).NotAValidRank? <==> r != 0 && forall p :: p in matches ==> p.rnk != r
    ensures ChooseRank(matches, r).Chosen? ==>
      var ps := ChooseRank(matches, r).players;
      && ps != []
      && (forall p :: p in ps <==> p in matches && p.rnk == r)
      && (forall p, q :: p in matches && q in matches && p.rnk == q.rnk ==> (p in ps <==> q in ps))
  {
    if r != 0 && r in Ranks(matches) {
      var i :| 0 <= i < |matches| && Ranks(matches)[i] == r;
      assert matches[i] in Filter(matches, HasRank(r));
    }
    if r != 0 && (forall p :: p in matches ==> p.rnk != r) {
      assert r !in Ranks(matches);
    }
  }

  // ---------------------------------------------------------------------
  // been_drafted
  // ---------------------------------------------------------------------

  function Ids(players: seq<Player>): set<nat> {
    set p | p in players :: p.id
  }

  /** The prediction list after `player['F TEAM'] = teamName` for each of the
      given players: these are the same records as in the list, so every record
      whose identity is among them changes. */
  function Relabel(data: seq<Player>, players: seq<Player>, teamName: string): (r: seq<Player>)
    ensures |r| == |data|
  {
    if data == [] then []
    else
      [if data[0].id in Ids(players) then data[0].(fTeam := teamName) else data[0]]
      + Relabel(data[1..], players, teamName)
  }

  /** Exactly the given players move to `teamName`; every record keeps its
      identity and all its other fields, and everyone else is unchanged. */
  lemma {:induction false} RelabelSpec(data: seq<Player>, players: seq<Player>, teamName: string, i: nat)
    requires i < |data|
    ensures Relabel(data, players, teamName)[i]
         == if data[i].id in Ids(players) then data[i].(fTeam := teamName) else data[i]
  {
    if i > 0 { RelabelSpec(data[1..], players, teamName, i - 1); }
  }
}
