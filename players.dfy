/** The player records of the live draft (one row of the projections table)
    and the two list operations the draft code builds on: Python's stable
    `sorted(..., key=...)` and filtering. */
module Players {
  import opened Wrappers
  import opened Text

  /** One row of `predictionData`. `id` stands for the identity of the Python
      dict, which the draft code mutates through shared references; the other
      fields are the columns the draft uses (`F TEAM`, `POS`, `PTS`, `RNK`,
      `FIRST`, `LAST`, `TEAM`, `repl_val`). `replVal` is None until
      `update_replacement_value` first writes it. */
  datatype Player = Player(
    id: nat,
    fTeam: string,
    pos: string,
    pts: int,
    rnk: int,
    first: string,
    last: string,
    team: string,
    replVal: Option<int>)

  /** The `F TEAM` value of an undrafted player. */
  const FreeAgent := "FA"

  type Order = (Player, Player) -> bool

  /** The key order constraints a `sorted(key=...)` call relies on. */
  ghost predicate TotalPreorder(le: Order) {
    Total(le) && Transitive(le)
  }

  ghost predicate Total(le: Order) {
    forall x: Player, y: Player :: le(x, y) || le(y, x)
  }

  ghost predicate Transitive(le: Order) {
    forall x: Player, y: Player, z: Player :: le(x, y) && le(y, z) ==> le(x, z)
  }

  ghost predicate Sorted(s: seq<Player>, le: Order) {
    forall i, j :: 0 <= i < j < |s| ==> le(s[i], s[j])
  }

  ghost predicate Equivalent(le: Order, x: Player, y: Player) {
    le(x, y) && le(y, x)
  }

  // ---------------------------------------------------------------------
  // Stable sort
  // ---------------------------------------------------------------------

  /** Insert `x` in front of the first element it does not come after. */
  function Insert(x: Player, s: seq<Player>, le: Order): (r: seq<Player>)
    ensures multiset(r) == multiset(s) + multiset{x}
    ensures |r| == |s| + 1
  {
    if s == [] then [x]
    else if le(x, s[0]) then [x] + s
    else
      assert s == [s[0]] + s[1..];
      [s[0]] + Insert(x, s[1..], le)
  }

  /** `sorted(s, key=k)`: insertion sort from the back. Inserting an earlier
      element in front of the elements with an equal key keeps equal keys in
      their original order, as Python's sort does. */
  function SortBy(s: seq<Player>, le: Order): (r: seq<Player>)
    ensures multiset(r) == multiset(s)
    ensures |r| == |s|
  {
    if s == [] then []
    else
      assert s == [s[0]] + s[1..];
      Insert(s[0], SortBy(s[1..], le), le)
  }

  lemma {:induction false} InsertSorted(x: Player, s: seq<Player>, le: Order)
    requires TotalPreorder(le) && Sorted(s, le)
    ensures Sorted(Insert(x, s, le), le)
  {
    if s != [] && !le(x, s[0]) {
      var tail := s[1..];
      assert Sorted(tail, le) by {
        forall i, j | 0 <= i < j < |tail| ensures le(tail[i], tail[j]) {
          assert tail[i] == s[i + 1] && tail[j] == s[j + 1];
        }
      }
      InsertSorted(x, tail, le);
      var rest := Insert(x, tail, le);
      assert le(s[0], x);
      forall j | 0 <= j < |rest| ensures le(s[0], rest[j]) {
        assert rest[j] in multiset(rest);
        if rest[j] != x {
          assert rest[j] in multiset(tail);
          var m :| 0 <= m < |tail| && tail[m] == rest[j];
          assert s[m + 1] == rest[j];
        }
      }
    }
  }

  /** The result of `SortBy` is ordered by the key. */
  lemma {:induction false} SortBySorted(s: seq<Player>, le: Order)
    requires TotalPreorder(le)
    ensures Sorted(SortBy(s, le), le)
  {
    if s != [] {
      SortBySorted(s[1..], le);
      InsertSorted(s[0], SortBy(s[1..], le), le);
    }
  }

  /** Sorting a list that is already in order gives it back unchanged. */
  lemma {:induction false} SortBySortedIdentity(s: seq<Player>, le: Order)
    requires Sorted(s, le)
    ensures SortBy(s, le) == s
  {
    if s != [] {
      assert Sorted(s[1..], le);
      SortBySortedIdentity(s[1..], le);
      if |s| > 1 {
        assert le(s[0], s[1]);
      }
    }
  }

  /** The elements of `s` whose key equals the key of `k`, in order. */
  function EquivalentTo(s: seq<Player>, le: Order, k: Player): seq<Player> {
    if s == [] then []
    else (if le(s[0], k) && le(k, s[0]) then [s[0]] else []) + EquivalentTo(s[1..], le, k)
  }

  lemma {:induction false} InsertStable(x: Player, s: seq<Player>, le: Order, k: Player)
    requires Transitive(le) && Sorted(s, le)
    ensures EquivalentTo(Insert(x, s, le), le, k)
         == (if Equivalent(le, x, k) then [x] else []) + EquivalentTo(s, le, k)
  {
    if s == [] {
    } else if le(x, s[0]) {
      assert ([x] + s)[1..] == s;
    } else {
      var tail := s[1..];
      assert Sorted(tail, le) by {
        forall i, j | 0 <= i < j < |tail| ensures le(tail[i], tail[j]) {
          assert tail[i] == s[i + 1] && tail[j] == s[j + 1];
        }
      }
      var rest := Insert(x, tail, le);
      assert ([s[0]] + rest)[1..] == rest;
      InsertStable(x, tail, le, k);
      if Equivalent(le, x, k) {
        assert !le(k, s[0]);
      }
    }
  }

  /** Stability: the elements with one key appear in the result in the order
      they had in the input. */
  lemma {:induction false} SortByStable(s: seq<Player>, le: Order, k: Player)
    requires TotalPreorder(le)
    ensures EquivalentTo(SortBy(s, le), le, k) == EquivalentTo(s, le, k)
  {
    if s != [] {
      SortByStable(s[1..], le, k);
      SortBySorted(s[1..], le);
      InsertStable(s[0], SortBy(s[1..], le), le, k);
    }
  }

  // ---------------------------------------------------------------------
  // Filtering
  // ---------------------------------------------------------------------

  /** `[x for x in s if keep(x)]`. */
  function Filter(s: seq<Player>, keep: Player -> bool): (r: seq<Player>)
    ensures |r| <= |s|
    ensures forall x :: x in r <==> x in s && keep(x)
    ensures multiset(r) <= multiset(s)
  {
    if s == [] then []
    else
      assert s == [s[0]] + s[1..];
      (if keep(s[0]) then [s[0]] else []) + Filter(s[1..], keep)
  }

  lemma {:induction false} FilterAppend(a: seq<Player>, b: seq<Player>, keep: Player -> bool)
    ensures Filter(a + b, keep) == Filter(a, keep) + Filter(b, keep)
  {
    if a == [] {
      assert a + b == b;
    } else {
      assert (a + b)[0] == a[0] && (a + b)[1..] == a[1..] + b;
      FilterAppend(a[1..], b, keep);
    }
  }

  /** One step of a scan that filters `s` from left to right. */
  lemma FilterStep(s: seq<Player>, i: nat, keep: Player -> bool)
    requires i < |s|
    ensures Filter(s[..i + 1], keep) == Filter(s[..i], keep) + (if keep(s[i]) then [s[i]] else [])
  {
    assert s[..i + 1] == s[..i] + [s[i]];
    FilterSnoc(s[..i], s[i], keep);
  }

  lemma FilterSnoc(a: seq<Player>, x: Player, keep: Player -> bool)
    ensures Filter(a + [x], keep) == Filter(a, keep) + (if keep(x) then [x] else [])
  {
    assert Filter([x], keep) == if keep(x) then [x] else [] by {
      assert [x][1..] == [];
    }
    FilterAppend(a, [x], keep);
  }

  lemma {:induction false} FilterSorted(s: seq<Player>, keep: Player -> bool, le: Order)
    requires Sorted(s, le)
    ensures Sorted(Filter(s, keep), le)
  {
    if s != [] {
      FilterSorted(s[1..], keep, le);
      var rest := Filter(s[1..], keep);
      forall j | 0 <= j < |rest| ensures le(s[0], rest[j]) {
        assert rest[j] in s[1..];
      }
    }
  }

  /** The multiset of a filter: every kept element with its multiplicity. */
  lemma {:induction false} FilterMultiset(s: seq<Player>, keep: Player -> bool, x: Player)
    ensures multiset(Filter(s, keep))[x] == if keep(x) then multiset(s)[x] else 0
  {
    if s != [] {
      FilterMultiset(s[1..], keep, x);
      assert s == [s[0]] + s[1..];
    }
  }

  // ---------------------------------------------------------------------
  // Sums of points
  // ---------------------------------------------------------------------

  function SumPts(s: seq<Player>): int {
    if s == [] then 0 else s[0].pts + SumPts(s[1..])
  }

  lemma {:induction false} SumPtsAppend(a: seq<Player>, b: seq<Player>)
    ensures SumPts(a + b) == SumPts(a) + SumPts(b)
  {
    if a == [] {
      assert a + b == b;
    } else {
      assert (a + b)[0] == a[0];
      assert (a + b)[1..] == a[1..] + b;
      SumPtsAppend(a[1..], b);
    }
  }

  /** A sum of points does not depend on the order of the players. */
  lemma {:induction false} SumPtsPermutation(a: seq<Player>, b: seq<Player>)
    requires multiset(a) == multiset(b)
    ensures SumPts(a) == SumPts(b)
    decreases |a|
  {
    if a == [] {
      assert |b| == |multiset(b)| == 0;
    } else {
      var x, tail := a[0], a[1..];
      assert multiset(a) == multiset{x} + multiset(tail) by {
        assert a == [x] + tail;
      }
      assert x in multiset(b);
      var i :| 0 <= i < |b| && b[i] == x;
      var b' := b[..i] + b[i + 1..];
      SumPtsRemove(b, i);
      RemoveMultiset(b, i);
      assert multiset(tail) == multiset(b');
      SumPtsPermutation(tail, b');
    }
  }

  lemma SumPtsRemove(b: seq<Player>, i: nat)
    requires i < |b|
    ensures SumPts(b) == b[i].pts + SumPts(b[..i] + b[i + 1..])
  {
    var front, back := b[..i], b[i + 1..];
    var rest := [b[i]] + back;
    assert b == front + rest;
    assert rest[1..] == back;
    SumPtsAppend(front, rest);
    SumPtsAppend(front, back);
  }

  lemma RemoveMultiset<T>(b: seq<T>, i: nat)
    requires i < |b|
    ensures multiset(b[..i] + b[i + 1..]) == multiset(b) - multiset{b[i]}
  {
    var front, back := b[..i], b[i + 1..];
    assert b == front + [b[i]] + back;
    assert multiset(b) == multiset(front) + multiset{b[i]} + multiset(back);
  }

  /** What a prefix leaves of a sequence's elements is its suffix's. */
  lemma SplitMultiset<T>(b: seq<T>, k: nat)
    requires k <= |b|
    ensures multiset(b) - multiset(b[..k]) == multiset(b[k..])
  {
    assert b == b[..k] + b[k..];
  }
}
