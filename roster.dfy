/** `team_draft_summary` and the arithmetic of `state_of_draft`: each fantasy
    team's drafted players are put into roster slots greedily, leftovers become
    flex entries, and per-team totals and per-slot averages are computed. */
module Roster {
  import opened Wrappers
  import opened Text
  import opened Players
  import opened Draft

  /** The keys of a team's dict: a position name of the position list,
      `flex_<i>`, or `TOTAL`. */
  datatype SlotKey = PosKey(pos: string) | FlexKey(index: nat) | TotalKey

  /** A dict value: `{}`, a player record, or the `{'PTS': n}` stored under
      `TOTAL`. */
  datatype Slot = Empty | Filled(player: Player) | Points(pts: int)

  type Bucket = map<SlotKey, Slot>

  // ---------------------------------------------------------------------
  // Slot kinds
  // ---------------------------------------------------------------------

  /** A combination slot such as `RB/WR`; `D/ST` is a single position. */
  predicate IsCombo(pos: string) {
    '/' in pos && pos != "D/ST"
  }

  /** The positions a slot accepts: its components for a combination slot,
      otherwise the position itself. */
  function Components(pos: string): seq<string> {
    if IsCombo(pos) then Split(pos, "/") else [pos]
  }

  /** `singlePos`. */
  function Singles(ps: seq<string>): (r: seq<string>)
    ensures forall x :: x in r <==> x in ps && !IsCombo(x)
  {
    if ps == [] then [] else (if !IsCombo(ps[0]) then [ps[0]] else []) + Singles(ps[1..])
  }

  /** `multiPos`. */
  function Combos(ps: seq<string>): (r: seq<string>)
    ensures forall x :: x in r <==> x in ps && IsCombo(x)
  {
    if ps == [] then [] else (if IsCombo(ps[0]) then [ps[0]] else []) + Combos(ps[1..])
  }

  /** The order in which the slots are filled: every single position, then
      every combination, each in position-list order. */
  function SlotOrder(ps: seq<string>): seq<string> {
    Singles(ps) + Combos(ps)
  }

  lemma {:induction false} SlotOrderPermutation(ps: seq<string>)
    ensures multiset(SlotOrder(ps)) == multiset(ps)
  {
    if ps != [] {
      SlotOrderPermutation(ps[1..]);
      assert ps == [ps[0]] + ps[1..];
    }
  }

  ghost predicate Distinct(ps: seq<string>) {
    forall i, j :: 0 <= i < j < |ps| ==> ps[i] != ps[j]
  }

  lemma DistinctByMultiset(xs: seq<string>, ys: seq<string>)
    requires multiset(xs) == multiset(ys) && Distinct(ys)
    ensures Distinct(xs)
  {
    forall i, j | 0 <= i < j < |xs| ensures xs[i] != xs[j] {
      if xs[i] == xs[j] {
        var x := xs[i];
        assert xs == xs[..i] + [x] + xs[i + 1..j] + [x] + xs[j + 1..];
        assert multiset(xs)[x] >= 2;
        MultiplicityAtMostOne(ys, x);
      }
    }
  }

  lemma {:induction false} MultiplicityAtMostOne(ys: seq<string>, x: string)
    requires Distinct(ys)
    ensures multiset(ys)[x] <= 1
  {
    if ys != [] {
      assert ys == [ys[0]] + ys[1..];
      MultiplicityAtMostOne(ys[1..], x);
      if ys[0] == x {
        assert x !in ys[1..];
      }
    }
  }

  // ---------------------------------------------------------------------
  // Filling the slots of one team
  // ---------------------------------------------------------------------

  /** `max(candidates, key=PTS)` followed by `remove`: the index of the first
      candidate with the most points, or None when `max` would raise on an
      empty list. */
  function BestIndex(s: seq<Player>, comps: seq<string>): (r: Option<nat>)
    ensures r.None? <==> forall j :: 0 <= j < |s| ==> s[j].pos !in comps
    ensures r.Some? ==> r.value < |s| && s[r.value].pos in comps
    ensures r.Some? ==> forall j :: 0 <= j < |s| && s[j].pos in comps ==> s[j].pts <= s[r.value].pts
    ensures r.Some? ==> forall j :: 0 <= j < r.value && s[j].pos in comps ==> s[j].pts < s[r.value].pts
    decreases |s|
  {
    if s == [] then None
    else
      var rest := BestIndex(s[1..], comps);
      if s[0].pos !in comps then (if rest.None? then None else Some(rest.value + 1))
      else if rest.Some? && s[rest.value + 1].pts > s[0].pts then Some(rest.value + 1)
      else Some(0)
  }

  function Without(s: seq<Player>, i: nat): (r: seq<Player>)
    requires i < |s|
    ensures multiset(r) == multiset(s) - multiset{s[i]}
    ensures |r| == |s| - 1
  {
    assert s == s[..i] + [s[i]] + s[i + 1..];
    s[..i] + s[i + 1..]
  }

  function PosKeys(slots: seq<string>): set<SlotKey> {
    set x | x in slots :: PosKey(x)
  }

  /** The pool left and the bucket after filling `slots` in order, starting
      from `pool` and `bucket`: each slot gets one key and nothing else
      changes. */
  function PlaceSlots(pool: seq<Player>, bucket: Bucket, slots: seq<string>): (r: (seq<Player>, Bucket))
    ensures r.1.Keys == bucket.Keys + PosKeys(slots)
    ensures forall k :: k in bucket && k !in PosKeys(slots) ==> r.1[k] == bucket[k]
    ensures |r.0| <= |pool|
    decreases |slots|
  {
    if slots == [] then (pool, bucket)
    else
      var (rem, b) := PlaceSlots(pool, bucket, slots[..|slots| - 1]);
      var pos := slots[|slots| - 1];
      assert PosKeys(slots) == PosKeys(slots[..|slots| - 1]) + {PosKey(pos)};
      var c := Choose(rem, pos);
      (c.0, b[PosKey(pos) := c.1])
  }

  /** One slot: the pool without the chosen player, and the slot's entry. */
  function Choose(rem: seq<Player>, pos: string): (r: (seq<Player>, Slot))
    ensures r.1.Empty? || r.1.Filled?
    ensures r.1.Empty? <==> forall p :: p in rem ==> p.pos !in Components(pos)
    ensures r.1.Empty? ==> r.0 == rem
    ensures r.1.Filled? ==> r.1.player in rem && r.1.player.pos in Components(pos)
    ensures r.1.Filled? ==> forall p :: p in rem && p.pos in Components(pos) ==> p.pts <= r.1.player.pts
    ensures r.1.Filled? ==> multiset(r.0) == multiset(rem) - multiset{r.1.player}
  {
    match BestIndex(rem, Components(pos))
    case None => (rem, Empty)
    case Some(i) => (Without(rem, i), Filled(rem[i]))
  }

  function FlexKeys(n: nat): set<SlotKey> {
    set i | 0 <= i < n :: FlexKey(i)
  }

  lemma PlaceSlotsAt(pool: seq<Player>, bucket: Bucket, slots: seq<string>, s: nat)
    requires s < |slots|
    ensures PlaceSlots(pool, bucket, slots[..s + 1]).0 == Choose(PlaceSlots(pool, bucket, slots[..s]).0, slots[s]).0
    ensures PlaceSlots(pool, bucket, slots[..s + 1]).1
              == PlaceSlots(pool, bucket, slots[..s]).1[PosKey(slots[s]) := Choose(PlaceSlots(pool, bucket, slots[..s]).0, slots[s]).1]
  {
    assert slots[..s + 1][..s] == slots[..s];
  }

  /** `flex_0`, `flex_1`, ... for the sorted leftovers. */
  function AddFlex(bucket: Bucket, flex: seq<Player>): (r: Bucket)
    ensures r.Keys == bucket.Keys + FlexKeys(|flex|)
    ensures forall k :: k in bucket && !k.FlexKey? ==> r[k] == bucket[k]
    ensures forall i :: 0 <= i < |flex| ==> r[FlexKey(i)] == Filled(flex[i])
    decreases |flex|
  {
    assert |flex| > 0 ==> FlexKeys(|flex|) == FlexKeys(|flex| - 1) + {FlexKey(|flex| - 1)};
    if flex == [] then bucket
    else AddFlex(bucket, flex[..|flex| - 1])[FlexKey(|flex| - 1) := Filled(flex[|flex| - 1])]
  }

  lemma AddFlexAt(bucket: Bucket, flex: seq<Player>, f: nat)
    requires f < |flex|
    ensures AddFlex(bucket, flex[..f + 1]) == AddFlex(bucket, flex[..f])[FlexKey(f) := Filled(flex[f])]
  {
    assert flex[..f + 1][..f] == flex[..f];
  }

  /** One pass of the team loop: the single slots, the combination slots and
      the flex entries. Gives the team's pool afterwards (the leftovers stay in
      `tds`) and its bucket. */
  function TeamStep(pool: seq<Player>, bucket: Bucket, posList: seq<string>): (r: (seq<Player>, Bucket))
    ensures r.1.Keys == bucket.Keys + PosKeys(posList) + FlexKeys(|r.0|)
  {
    assert PosKeys(SlotOrder(posList)) == PosKeys(posList);
    var (rem, b) := PlaceSlots(pool, bucket, SlotOrder(posList));
    (rem, AddFlex(b, SortBy(rem, PtsDescLe)))
  }

  /** The players held by the slots `slots` of bucket `b`, in slot order. */
  function Placed(b: Bucket, slots: seq<string>): seq<Player>
    decreases |slots|
  {
    if slots == [] then []
    else
      var k := PosKey(slots[|slots| - 1]);
      Placed(b, slots[..|slots| - 1]) + (if k in b && b[k].Filled? then [b[k].player] else [])
  }

  lemma {:induction false} PlacedFrame(b: Bucket, b': Bucket, slots: seq<string>)
    requires forall x :: x in slots ==> (PosKey(x) in b <==> PosKey(x) in b')
    requires forall x :: x in slots && PosKey(x) in b ==> b[PosKey(x)] == b'[PosKey(x)]
    ensures Placed(b, slots) == Placed(b', slots)
    decreases |slots|
  {
    if slots != [] {
      PlacedFrame(b, b', slots[..|slots| - 1]);
    }
  }

  /** Filling distinct slots loses no player and duplicates none: the pool
      is what is left plus what the slots hold. */
  lemma {:induction false} PlaceSlotsFacts(pool: seq<Player>, b0: Bucket, slots: seq<string>)
    requires Distinct(slots)
    ensures forall x :: x in slots ==> !PlaceSlots(pool, b0, slots).1[PosKey(x)].Points?
    ensures multiset(pool) == multiset(PlaceSlots(pool, b0, slots).0) + multiset(Placed(PlaceSlots(pool, b0, slots).1, slots))
    decreases |slots|
  {
    if slots != [] {
      var init := slots[..|slots| - 1];
      var pos := slots[|slots| - 1];
      assert Distinct(init);
      PlaceSlotsFacts(pool, b0, init);
      var prev := PlaceSlots(pool, b0, init);
      var r := PlaceSlots(pool, b0, slots);
      var c := Choose(prev.0, pos);
      assert pos !in init;
      assert r == (c.0, prev.1[PosKey(pos) := c.1]);
      PlacedFrame(prev.1, r.1, init);
      match BestIndex(prev.0, Components(pos)) {
        case None =>
          assert Placed(r.1, slots) == Placed(r.1, init) + [];
        case Some(i) =>
          assert Placed(r.1, slots) == Placed(prev.1, init) + [prev.0[i]];
      }
      forall x | x in slots ensures !r.1[PosKey(x)].Points? {
        if x != pos {
          assert x in init;
        }
      }
    }
  }

  /** The entry of slot `slots[k]`: the best candidate left after the slots
      before it (the first with the most points), or `{}` when none is left. */
  lemma {:induction false} SlotChoice(pool: seq<Player>, b0: Bucket, slots: seq<string>, k: nat)
    requires Distinct(slots) && k < |slots|
    ensures PlaceSlots(pool, b0, slots).1[PosKey(slots[k])] == Choose(PlaceSlots(pool, b0, slots[..k]).0, slots[k]).1
    decreases |slots|
  {
    var init := slots[..|slots| - 1];
    var pos := slots[|slots| - 1];
    if k == |slots| - 1 {
      assert init == slots[..k];
    } else {
      assert Distinct(init) && init[k] == slots[k] && init[..k] == slots[..k];
      SlotChoice(pool, b0, init, k);
      assert pos != slots[k];
    }
  }

  /** Filling single-position slots only ever takes players of those
      positions, so the players of any other position all stay in the pool. */
  lemma {:induction false} SinglesKeep(pool: seq<Player>, b0: Bucket, slots: seq<string>, pos: string, p: Player)
    requires forall x :: x in slots ==> !IsCombo(x) && x != pos
    requires p.pos == pos
    ensures multiset(PlaceSlots(pool, b0, slots).0)[p] == multiset(pool)[p]
    decreases |slots|
  {
    if slots != [] {
      var init, last := slots[..|slots| - 1], slots[|slots| - 1];
      assert forall x :: x in init ==> x in slots;
      SinglesKeep(pool, b0, init, pos, p);
      var rem := PlaceSlots(pool, b0, init).0;
      var c := Choose(rem, last);
      assert PlaceSlots(pool, b0, slots).0 == c.0;
      assert !IsCombo(last) && last != pos;
      assert Components(last) == [last];
      if c.1.Filled? {
        assert c.1.player != p;
      }
    }
  }

  /** The slot order is a rearrangement of the position list, so it has no
      repeats when the list has none. */
  lemma SlotOrderDistinct(ps: seq<string>)
    requires Distinct(ps)
    ensures Distinct(SlotOrder(ps))
  {
    SlotOrderPermutation(ps);
    DistinctByMultiset(SlotOrder(ps), ps);
  }

  /** The flex entries of one team: one `flex_<i>` per leftover, holding the
      leftovers from most to fewest points. */
  lemma TeamStepFlex(pool: seq<Player>, posList: seq<string>)
    ensures var step := TeamStep(pool, map[], posList); var rem, b := step.0, step.1;
            (forall i :: 0 <= i < |rem| ==> b[FlexKey(i)] == Filled(SortBy(rem, PtsDescLe)[i]))
            && (forall i, j :: 0 <= i < j < |rem| ==> b[FlexKey(i)].player.pts >= b[FlexKey(j)].player.pts)
  {
    var (rem, b) := PlaceSlots(pool, map[], SlotOrder(posList));
    PtsDescLeTotalPreorder();
    SortBySorted(rem, PtsDescLe);
  }

  /** The entry of the `k`-th slot of a team's pass, as chosen from what the
      slots before it left. */
  lemma SlotEntry(pool: seq<Player>, posList: seq<string>, k: nat)
    requires Distinct(posList) && k < |SlotOrder(posList)|
    ensures var slots := SlotOrder(posList);
            TeamStep(pool, map[], posList).1[PosKey(slots[k])]
              == Choose(PlaceSlots(pool, map[], slots[..k]).0, slots[k]).1
  {
    var slots := SlotOrder(posList);
    SlotOrderDistinct(posList);
    SlotChoice(pool, map[], slots, k);
  }

  /** Where a single position sits in the slot order: only other single
      positions come before it. */
  lemma SingleIndex(posList: seq<string>, pos: string) returns (k: nat)
    requires pos in posList && !IsCombo(pos)
    ensures k < |SlotOrder(posList)| && SlotOrder(posList)[k] == pos
    ensures forall x :: x in SlotOrder(posList)[..k] ==> !IsCombo(x)
  {
    var singles := Singles(posList);
    assert pos in singles;
    k :| 0 <= k < |singles| && singles[k] == pos;
    assert SlotOrder(posList)[..k] == singles[..k];
    forall x | x in singles[..k] ensures !IsCombo(x) {
      assert x in singles;
    }
  }

  /** A single-position slot holds a player of that position with the most
      points among the team's players of that position, and is `{}` exactly
      when the team has none. */
  lemma SingleSlotSpec(pool: seq<Player>, posList: seq<string>, pos: string)
    requires Distinct(posList) && pos in posList && !IsCombo(pos)
    ensures var e := TeamStep(pool, map[], posList).1[PosKey(pos)];
            (e.Empty? || e.Filled?)
            && (e.Empty? <==> forall p :: p in pool ==> p.pos != pos)
            && (e.Filled? ==> e.player in pool && e.player.pos == pos
                              && forall p :: p in pool && p.pos == pos ==> p.pts <= e.player.pts)
  {
    var k := SingleIndex(posList, pos);
    var slots := SlotOrder(posList);
    SlotOrderDistinct(posList);
    forall x | x in slots[..k] ensures x != pos {
      var j :| 0 <= j < k && slots[..k][j] == x;
    }
    var rem := PlaceSlots(pool, map[], slots[..k]).0;
    forall p: Player | p.pos == pos ensures p in rem <==> p in pool {
      SinglesKeep(pool, map[], slots[..k], pos, p);
    }
    SlotEntry(pool, posList, k);
    assert Components(pos) == [pos];
  }

  /** A combination slot holds, among the players still unplaced when its
      turn comes, one of its component positions with the most points, and is
      `{}` exactly when no such player is left. */
  lemma ComboSlotSpec(pool: seq<Player>, posList: seq<string>, k: nat)
    requires Distinct(posList) && |Singles(posList)| <= k < |SlotOrder(posList)|
    ensures var slots := SlotOrder(posList);
            var rem := PlaceSlots(pool, map[], slots[..k]).0;
            var comps := Components(slots[k]);
            var e := TeamStep(pool, map[], posList).1[PosKey(slots[k])];
            IsCombo(slots[k])
            && multiset(rem) <= multiset(pool)
            && (e.Empty? || e.Filled?)
            && (e.Empty? <==> forall p :: p in rem ==> p.pos !in comps)
            && (e.Filled? ==> e.player in rem && e.player.pos in comps
                              && forall p :: p in rem && p.pos in comps ==> p.pts <= e.player.pts)
  {
    var slots := SlotOrder(posList);
    SlotOrderDistinct(posList);
    assert slots[k] == Combos(posList)[k - |Singles(posList)|];
    assert slots[k] in Combos(posList);
    assert Distinct(slots[..k]);
    PlaceSlotsFacts(pool, map[], slots[..k]);
    SlotEntry(pool, posList, k);
  }

  // ---------------------------------------------------------------------
  // Points of slots
  // ---------------------------------------------------------------------

  /** `teamVals.get(k, {}).get('PTS', 0)`. */
  function SlotPoints(b: Bucket, k: SlotKey): int {
    if k !in b then 0
    else match b[k]
      case Empty => 0
      case Filled(p) => p.pts
      case Points(n) => n
  }

  /** Keys whose name contains `flex_`, which the total leaves out. */
  predicate FlexLike(k: SlotKey) {
    match k
    case PosKey(name) => Contains(name, "flex_")
    case FlexKey(_) => true
    case TotalKey => false
  }

  /** The points of the slots `xs`, in order. */
  function SlotSum(b: Bucket, xs: seq<string>): int
    decreases |xs|
  {
    if xs == [] then 0 else SlotSum(b, xs[..|xs| - 1]) + SlotPoints(b, PosKey(xs[|xs| - 1]))
  }

  /** `TOTAL`: the points of the team's position keys that are not flex-like;
      a position listed twice is one key of the dict and counts once. */
  function TeamTotal(b: Bucket, posList: seq<string>): int
    decreases |posList|
  {
    if posList == [] then 0
    else
      var init, x := posList[..|posList| - 1], posList[|posList| - 1];
      TeamTotal(b, init) + (if x in init || FlexLike(PosKey(x)) then 0 else SlotPoints(b, PosKey(x)))
  }

  lemma {:induction false} TeamTotalDistinct(b: Bucket, posList: seq<string>)
    requires Distinct(posList) && forall x :: x in posList ==> !FlexLike(PosKey(x))
    ensures TeamTotal(b, posList) == SlotSum(b, posList)
    decreases |posList|
  {
    if posList != [] {
      TeamTotalDistinct(b, posList[..|posList| - 1]);
    }
  }

  lemma {:induction false} SlotSumAppend(b: Bucket, xs: seq<string>, ys: seq<string>)
    ensures SlotSum(b, xs + ys) == SlotSum(b, xs) + SlotSum(b, ys)
    decreases |ys|
  {
    if ys == [] {
      assert xs + ys == xs;
    } else {
      var init := ys[..|ys| - 1];
      assert (xs + ys)[..|xs + ys| - 1] == xs + init;
      SlotSumAppend(b, xs, init);
    }
  }

  lemma SlotSumRemove(b: Bucket, xs: seq<string>, i: nat)
    requires i < |xs|
    ensures SlotSum(b, xs) == SlotPoints(b, PosKey(xs[i])) + SlotSum(b, xs[..i] + xs[i + 1..])
    ensures multiset(xs[..i] + xs[i + 1..]) == multiset(xs) - multiset{xs[i]}
  {
    var front, back := xs[..i], xs[i + 1..];
    assert xs == front + ([xs[i]] + back);
    SlotSumAppend(b, front, [xs[i]] + back);
    SlotSumAppend(b, [xs[i]], back);
    assert [xs[i]][..0] == [];
    SlotSumAppend(b, front, back);
  }

  /** A sum over slots does not depend on their order. */
  lemma {:induction false} SlotSumPermutation(b: Bucket, xs: seq<string>, ys: seq<string>)
    requires multiset(xs) == multiset(ys)
    ensures SlotSum(b, xs) == SlotSum(b, ys)
    decreases |xs|
  {
    if xs == [] {
      assert |ys| == |multiset(ys)| == 0;
    } else {
      var init, x := xs[..|xs| - 1], xs[|xs| - 1];
      assert xs == init + [x];
      assert multiset(xs) == multiset(init) + multiset{x};
      assert x in multiset(ys);
      var i :| 0 <= i < |ys| && ys[i] == x;
      var rest := ys[..i] + ys[i + 1..];
      SlotSumRemove(b, ys, i);
      assert multiset(init) == multiset(rest);
      SlotSumPermutation(b, init, rest);
      assert SlotSum(b, xs) == SlotSum(b, init) + SlotPoints(b, PosKey(x));
    }
  }

  /** The points held by the filled slots are the points of the slots, when
      none of them is a `TOTAL`-style entry. */
  lemma {:induction false} PlacedSum(b: Bucket, xs: seq<string>)
    requires forall x :: x in xs && PosKey(x) in b ==> !b[PosKey(x)].Points?
    ensures SumPts(Placed(b, xs)) == SlotSum(b, xs)
    decreases |xs|
  {
    if xs != [] {
      var init, x := xs[..|xs| - 1], xs[|xs| - 1];
      PlacedSum(b, init);
      var k := PosKey(x);
      var tail := if k in b && b[k].Filled? then [b[k].player] else [];
      SumPtsAppend(Placed(b, init), tail);
      if tail != [] {
        assert tail[1..] == [];
      }
    }
  }

  /** The total of a team plus the points of its flex players is the points of
      all its drafted players: every player is counted once. */
  lemma TotalPlusFlex(pool: seq<Player>, posList: seq<string>)
    requires Distinct(posList) && forall x :: x in posList ==> !FlexLike(PosKey(x))
    ensures TeamTotal(TeamStep(pool, map[], posList).1, posList)
              == SumPts(pool) - SumPts(SortBy(TeamStep(pool, map[], posList).0, PtsDescLe))
  {
    var slots := SlotOrder(posList);
    SlotOrderDistinct(posList);
    PlaceSlotsFacts(pool, map[], slots);
    var (rem, placed) := PlaceSlots(pool, map[], slots);
    var flex := SortBy(rem, PtsDescLe);
    var b := AddFlex(placed, flex);
    PlacedFrame(placed, b, slots);
    PlacedSum(b, slots);
    SlotOrderPermutation(posList);
    SlotSumPermutation(b, slots, posList);
    TeamTotalDistinct(b, posList);
    SumPtsPermutation(pool, rem + Placed(b, slots));
    SumPtsAppend(rem, Placed(b, slots));
    SumPtsPermutation(flex, rem);
  }

  // ---------------------------------------------------------------------
  // The whole summary
  // ---------------------------------------------------------------------

  function PoolOf(pools: map<string, seq<Player>>, t: string): seq<Player> {
    if t in pools then pools[t] else []
  }

  function BucketOf(buckets: map<string, Bucket>, t: string): Bucket {
    if t in buckets then buckets[t] else map[]
  }

  /** `tds`: every drafted player appended to the list of its fantasy team. */
  function InitialPools(data: seq<Player>): map<string, seq<Player>>
    decreases |data|
  {
    if data == [] then map[]
    else
      var pools := InitialPools(data[..|data| - 1]);
      var p := data[|data| - 1];
      if p.fTeam == FreeAgent then pools else pools[p.fTeam := PoolOf(pools, p.fTeam) + [p]]
  }

  function OnTeam(t: string): Player -> bool {
    (p: Player) => p.fTeam == t
  }

  /** The players drafted by team `t`, in list order. */
  function Drafted(data: seq<Player>, t: string): seq<Player> {
    if t == FreeAgent then [] else Filter(data, OnTeam(t))
  }

  lemma {:induction false} InitialPoolsSpec(data: seq<Player>, t: string)
    ensures PoolOf(InitialPools(data), t) == Drafted(data, t)
    decreases |data|
  {
    if data != [] {
      var init := data[..|data| - 1];
      var p := data[|data| - 1];
      InitialPoolsSpec(init, t);
      assert data == init + [p];
      if t != FreeAgent {
        FilterAppend(init, [p], OnTeam(t));
        assert [p][1..] == [];
        assert Filter([p], OnTeam(t)) == if p.fTeam == t then [p] else [];
      }
    }
  }

  datatype SummaryState = SummaryState(pools: map<string, seq<Player>>, buckets: map<string, Bucket>)

  /** `tds` and `tdsBucket` after the team loop has run over `teams`. A team's
      dict is created on its first write, so it stays absent when there is
      neither a slot nor a leftover to write. */
  function RunTeams(data: seq<Player>, posList: seq<string>, teams: seq<string>): SummaryState
    decreases |teams|
  {
    if teams == [] then SummaryState(InitialPools(data), map[])
    else
      var st := RunTeams(data, posList, teams[..|teams| - 1]);
      var t := teams[|teams| - 1];
      var (rem, b) := TeamStep(PoolOf(st.pools, t), BucketOf(st.buckets, t), posList);
      SummaryState(st.pools[t := rem],
                   if SlotOrder(posList) != [] || rem != [] then st.buckets[t := b] else st.buckets)
  }

  lemma RunTeamsAt(data: seq<Player>, posList: seq<string>, teams: seq<string>, k: nat)
    requires k < |teams|
    ensures var st := RunTeams(data, posList, teams[..k]);
            var step := TeamStep(PoolOf(st.pools, teams[k]), BucketOf(st.buckets, teams[k]), posList);
            RunTeams(data, posList, teams[..k + 1])
              == SummaryState(st.pools[teams[k] := step.0],
                              if SlotOrder(posList) != [] || step.0 != [] then st.buckets[teams[k] := step.1] else st.buckets)
  {
    assert teams[..k + 1][..k] == teams[..k];
  }

  /** The dict `team_draft_summary` returns. */
  function DraftSummary(data: seq<Player>, posList: seq<string>, teams: seq<string>): map<string, Bucket> {
    RunTeams(data, posList, teams).buckets
  }

  /** Whether the team loop writes anything for a team: a slot, or a flex
      entry. */
  predicate Created(pool: seq<Player>, posList: seq<string>) {
    SlotOrder(posList) != [] || TeamStep(pool, map[], posList).0 != []
  }

  /** Over distinct teams, each team's bucket is one pass over its own drafted
      players, started from an empty dict; teams not yet reached keep their
      players and have no dict. */
  lemma {:induction false} RunTeamsSpec(data: seq<Player>, posList: seq<string>, teams: seq<string>, u: string)
    requires Distinct(teams)
    ensures u !in teams ==> PoolOf(RunTeams(data, posList, teams).pools, u) == PoolOf(InitialPools(data), u)
    ensures u in RunTeams(data, posList, teams).buckets <==> u in teams && Created(PoolOf(InitialPools(data), u), posList)
    ensures u in RunTeams(data, posList, teams).buckets ==>
              RunTeams(data, posList, teams).buckets[u] == TeamStep(PoolOf(InitialPools(data), u), map[], posList).1
    decreases |teams|
  {
    if teams != [] {
      var init, t := teams[..|teams| - 1], teams[|teams| - 1];
      assert Distinct(init) && t !in init && (u in teams <==> u in init || u == t) by {
        assert forall i :: 0 <= i < |init| ==> init[i] == teams[i];
      }
      RunTeamsSpec(data, posList, init, u);
      RunTeamsPools(data, posList, init, t);
      RunTeamsBucketAbsent(data, posList, init, t);
      var st := RunTeams(data, posList, init);
      var pool := PoolOf(InitialPools(data), t);
      assert PoolOf(st.pools, t) == pool && BucketOf(st.buckets, t) == map[];
      var step := TeamStep(pool, map[], posList);
      var created := SlotOrder(posList) != [] || step.0 != [];
      assert created == Created(pool, posList);
      var next := RunTeams(data, posList, teams);
      assert next.pools == st.pools[t := step.0];
      assert next.buckets == if created then st.buckets[t := step.1] else st.buckets;
      if u == t {
        assert u in next.buckets <==> created;
        assert created ==> next.buckets[u] == step.1;
      } else {
        assert u in next.buckets <==> u in st.buckets;
        assert u in st.buckets ==> next.buckets[u] == st.buckets[u];
      }
    }
  }

  /** The loop leaves the pool of a team it has not reached untouched. */
  lemma {:induction false} RunTeamsPools(data: seq<Player>, posList: seq<string>, teams: seq<string>, u: string)
    ensures u !in teams ==> PoolOf(RunTeams(data, posList, teams).pools, u) == PoolOf(InitialPools(data), u)
    decreases |teams|
  {
    if teams != [] && u !in teams {
      var k := |teams| - 1;
      assert u != teams[k] && u !in teams[..k];
      RunTeamsPools(data, posList, teams[..k], u);
      RunTeamsAt(data, posList, teams, k);
      assert teams[..k + 1] == teams;
    }
  }

  /** Nor does it create the dict of a team it has not reached. */
  lemma {:induction false} RunTeamsBucketAbsent(data: seq<Player>, posList: seq<string>, teams: seq<string>, u: string)
    ensures u !in teams ==> u !in RunTeams(data, posList, teams).buckets
    decreases |teams|
  {
    if teams != [] && u !in teams {
      var k := |teams| - 1;
      assert u != teams[k] && u !in teams[..k];
      RunTeamsBucketAbsent(data, posList, teams[..k], u);
      RunTeamsAt(data, posList, teams, k);
      assert teams[..k + 1] == teams;
    }
  }

  lemma SlotOrderEmpty(ps: seq<string>)
    ensures SlotOrder(ps) == [] <==> ps == []
  {
    if ps != [] {
      assert ps[0] in Singles(ps) || ps[0] in Combos(ps);
    }
  }

  /** The dict `team_draft_summary` returns, for distinct teams: a team has a
      dict exactly when it is listed and has a slot or a leftover, and that
      dict is one pass over the players it drafted. */
  lemma DraftSummarySpec(data: seq<Player>, posList: seq<string>, teams: seq<string>, t: string)
    requires Distinct(teams)
    ensures var summary := DraftSummary(data, posList, teams);
            var step := TeamStep(Drafted(data, t), map[], posList);
            (t in summary <==> t in teams && (posList != [] || step.0 != []))
            && (t in summary ==> summary[t] == step.1)
  {
    RunTeamsSpec(data, posList, teams, t);
    InitialPoolsSpec(data, t);
    SlotOrderEmpty(posList);
  }

  // ---------------------------------------------------------------------
  // state_of_draft
  // ---------------------------------------------------------------------

  /** `teamList`: the fantasy teams that have drafted someone, sorted. */
  ghost function TeamList(data: seq<Player>): seq<string> {
    SortedStrings(set p | p in data && p.fTeam != FreeAgent :: p.fTeam)
  }

  /** The same list built by inserting each drafted player's team in turn,
      as the program can compute it. */
  function DraftingTeams(data: seq<Player>): (r: seq<string>)
    ensures StrictlySorted(r)
    ensures forall t :: t in r <==> t != FreeAgent && exists p :: p in data && p.fTeam == t
  {
    if data == [] then []
    else
      var rest := DraftingTeams(data[1..]);
      assert forall p :: p in data <==> p == data[0] || p in data[1..] by {
        assert data == [data[0]] + data[1..];
      }
      if data[0].fTeam == FreeAgent then rest else InsertString(rest, data[0].fTeam)
  }

  lemma DraftingTeamsIsTeamList(data: seq<Player>)
    ensures DraftingTeams(data) == TeamList(data)
  {
    var teams := set p | p in data && p.fTeam != FreeAgent :: p.fTeam;
    forall t ensures t in DraftingTeams(data) <==> t in TeamList(data) {
      if t in DraftingTeams(data) {
        var p :| p in data && p.fTeam == t;
        assert t in teams;
      }
    }
    SortedUnique(DraftingTeams(data), TeamList(data));
  }

  lemma TeamListSpec(data: seq<Player>)
    ensures Distinct(TeamList(data))
    ensures forall t :: t in TeamList(data) <==> t != FreeAgent && exists p :: p in data && p.fTeam == t
  {
    var teams := TeamList(data);
    forall i, j | 0 <= i < j < |teams| ensures teams[i] != teams[j] {
      if teams[i] == teams[j] {
        StrLtIrreflexive(teams[i]);
      }
    }
  }

  /** A team's dict with its `TOTAL` entry added. */
  function WithTotal(b: Bucket, posList: seq<string>): Bucket {
    b[TotalKey := Points(TeamTotal(b, posList))]
  }

  /** Each team's dict with its `TOTAL` entry added. */
  function WithTotals(summary: map<string, Bucket>, posList: seq<string>): (r: map<string, Bucket>)
    ensures r.Keys == summary.Keys
  {
    map t | t in summary :: WithTotal(summary[t], posList)
  }

  /** Every key some team's dict has: the keys of `posVals`. */
  function AllKeys(summary: map<string, Bucket>): set<SlotKey> {
    set t, k | t in summary && k in summary[t] :: k
  }

  /** `posVals[k]`: the points of the teams whose entry at `k` is not `{}`,
      in team order. */
  function PosVals(summary: map<string, Bucket>, teams: seq<string>, k: SlotKey): seq<int>
    decreases |teams|
  {
    if teams == [] then []
    else
      var t := teams[|teams| - 1];
      PosVals(summary, teams[..|teams| - 1], k)
        + (if t in summary && k in summary[t] && !summary[t][k].Empty? then [SlotPoints(summary[t], k)] else [])
  }

  function IntSum(vals: seq<int>): int
    decreases |vals|
  {
    if vals == [] then 0 else IntSum(vals[..|vals| - 1]) + vals[|vals| - 1]
  }

  /** `sum(vals) / len(vals)` with Python 2 integer (floor) division, and 0
      for an empty list. */
  function Average(vals: seq<int>): int {
    if vals == [] then 0 else IntSum(vals) / |vals|
  }

  /** `avVals`: one average per key any team has. A key whose entries are all
      `{}` still gets one, and it is 0. */
  function AvVals(summary: map<string, Bucket>, teams: seq<string>): (r: map<SlotKey, int>)
    ensures r.Keys == AllKeys(summary)
  {
    map k | k in AllKeys(summary) :: Average(PosVals(summary, teams, k))
  }

  /** `binVals`: each team's points at each averaged key, minus the average. */
  function BinVals(summary: map<string, Bucket>, avVals: map<SlotKey, int>): (r: map<string, map<SlotKey, int>>)
    ensures r.Keys == summary.Keys
    ensures forall t :: t in r ==> r[t].Keys == avVals.Keys
  {
    map t | t in summary :: map k | k in avVals :: SlotPoints(summary[t], k) - avVals[k]
  }

  /** The summary `state_of_draft` plots: every drafting team's dict with its
      `TOTAL`. */
  ghost function TeamSummary(data: seq<Player>, posList: seq<string>): map<string, Bucket> {
    WithTotals(DraftSummary(data, posList, TeamList(data)), posList)
  }

  ghost function StateOfDraft(data: seq<Player>, posList: seq<string>)
    : (map<string, Bucket>, map<SlotKey, int>, map<string, map<SlotKey, int>>)
  {
    var summary := TeamSummary(data, posList);
    var av := AvVals(summary, TeamList(data));
    (summary, av, BinVals(summary, av))
  }

  /** Each team's `TOTAL` in the state of the draft is the total of the dict
      one pass over its own drafted players builds. */
  lemma TeamSummaryEntry(data: seq<Player>, posList: seq<string>, t: string)
    requires t in TeamSummary(data, posList)
    ensures TotalKey in TeamSummary(data, posList)[t]
    ensures TeamSummary(data, posList)[t][TotalKey]
              == Points(TeamTotal(TeamStep(Drafted(data, t), map[], posList).1, posList))
  {
    var teams := TeamList(data);
    TeamListSpec(data);
    DraftSummarySpec(data, posList, teams, t);
  }

  /** An average lies between any lower and upper bound of its values. */
  lemma AverageBounds(vals: seq<int>, lo: int, hi: int)
    requires vals != [] && forall i :: 0 <= i < |vals| ==> lo <= vals[i] <= hi
    ensures lo <= Average(vals) <= hi
  {
    SumBounds(vals, lo, hi);
    FloorBetween(IntSum(vals), |vals|, lo, hi);
  }

  lemma FloorBetween(x: int, n: int, lo: int, hi: int)
    requires n > 0 && n * lo <= x <= n * hi
    ensures lo <= x / n <= hi
  {
    var q, r := x / n, x % n;
    assert x == n * q + r && 0 <= r < n;
    if q < lo {
      MulMonotonic(n, q + 1, lo);
    }
    if q > hi {
      MulMonotonic(n, hi + 1, q);
    }
  }

  lemma MulMonotonic(n: int, a: int, b: int)
    requires n >= 0 && a <= b
    ensures n * a <= n * b
  {
    assert n * b - n * a == n * (b - a);
  }

  lemma {:induction false} SumBounds(vals: seq<int>, lo: int, hi: int)
    requires forall i :: 0 <= i < |vals| ==> lo <= vals[i] <= hi
    ensures |vals| * lo <= IntSum(vals) <= |vals| * hi
    decreases |vals|
  {
    if vals != [] {
      var n, init := |vals|, vals[..|vals| - 1];
      assert forall i :: 0 <= i < |init| ==> init[i] == vals[i];
      SumBounds(init, lo, hi);
      assert n * lo == (n - 1) * lo + lo && n * hi == (n - 1) * hi + hi;
    }
  }

  /** Each value minus `a`. */
  function Deviations(vals: seq<int>, a: int): (r: seq<int>)
    ensures |r| == |vals|
    decreases |vals|
  {
    if vals == [] then [] else Deviations(vals[..|vals| - 1], a) + [vals[|vals| - 1] - a]
  }

  lemma {:induction false} DeviationsSum(vals: seq<int>, a: int)
    ensures IntSum(Deviations(vals, a)) == IntSum(vals) - |vals| * a
    decreases |vals|
  {
    if vals != [] {
      var d := Deviations(vals, a);
      assert d[..|d| - 1] == Deviations(vals[..|vals| - 1], a);
      DeviationsSum(vals[..|vals| - 1], a);
    }
  }

  /** The deviations from a floored average add up to the remainder of the
      division: at least 0 and less than the number of values. */
  lemma DeviationsFromAverage(vals: seq<int>)
    requires vals != []
    ensures 0 <= IntSum(Deviations(vals, Average(vals))) < |vals|
  {
    var x, n := IntSum(vals), |vals|;
    DeviationsSum(vals, x / n);
    FloorRemainder(x, n);
  }

  lemma FloorRemainder(x: int, n: int)
    requires n > 0
    ensures 0 <= x - n * (x / n) < n
  {
    var q, r := x / n, x % n;
    assert x == n * q + r;
  }

  lemma BinValsAt(summary: map<string, Bucket>, av: map<SlotKey, int>, t: string, k: SlotKey)
    requires t in summary && k in av
    ensures t in BinVals(summary, av) && k in BinVals(summary, av)[t]
    ensures BinVals(summary, av)[t][k] == SlotPoints(summary[t], k) - av[k]
  {
  }

  /** The deviations of the teams with an entry at `k`, in team order. */
  function FilledDeviations(summary: map<string, Bucket>, bin: map<string, map<SlotKey, int>>,
                            teams: seq<string>, k: SlotKey): seq<int>
    decreases |teams|
  {
    if teams == [] then []
    else
      var t := teams[|teams| - 1];
      FilledDeviations(summary, bin, teams[..|teams| - 1], k)
        + (if t in summary && k in summary[t] && !summary[t][k].Empty? && t in bin && k in bin[t] then [bin[t][k]] else [])
  }

  lemma DeviationsSnoc(vals: seq<int>, x: int, a: int)
    ensures Deviations(vals + [x], a) == Deviations(vals, a) + [x - a]
  {
    assert (vals + [x])[..|vals|] == vals;
  }

  /** The `binVals` of the teams that fill key `k` are exactly the deviations
      of `posVals[k]` from the average at `k`. */
  lemma BinValsAreDeviations(summary: map<string, Bucket>, av: map<SlotKey, int>,
                             teams: seq<string>, k: SlotKey)
    requires k in av
    ensures FilledDeviations(summary, BinVals(summary, av), teams, k) == Deviations(PosVals(summary, teams, k), av[k])
  {
    var bin := BinVals(summary, av);
    forall t | t in summary && k in summary[t] && !summary[t][k].Empty?
      ensures t in bin && k in bin[t] && bin[t][k] == SlotPoints(summary[t], k) - av[k]
    {
      BinValsAt(summary, av, t, k);
    }
    FilledAreDeviations(summary, bin, av[k], teams, k);
  }

  /** The same, for any table that holds each filled slot's points less `a`. */
  lemma {:induction false} FilledAreDeviations(summary: map<string, Bucket>, bin: map<string, map<SlotKey, int>>,
                                               a: int, teams: seq<string>, k: SlotKey)
    requires forall t :: t in summary && k in summary[t] && !summary[t][k].Empty? ==>
               t in bin && k in bin[t] && bin[t][k] == SlotPoints(summary[t], k) - a
    ensures FilledDeviations(summary, bin, teams, k) == Deviations(PosVals(summary, teams, k), a)
    decreases |teams|
  {
    if teams != [] {
      var init, t := teams[..|teams| - 1], teams[|teams| - 1];
      FilledAreDeviations(summary, bin, a, init, k);
      if t in summary && k in summary[t] && !summary[t][k].Empty? {
        var x := SlotPoints(summary[t], k);
        assert PosVals(summary, teams, k) == PosVals(summary, init, k) + [x];
        DeviationsSnoc(PosVals(summary, init, k), x, a);
      } else {
        assert PosVals(summary, teams, k) == PosVals(summary, init, k);
      }
    }
  }
}
