/**
 The rank statistics of the benchmark comparison: the rank-sum form of Mann-Whitney's U is the
 pairwise count, and Cliff's delta is a function of it. Ranks and U are doubled, so that the
 average rank of a group of ties and a half point for a tied pair are integers.
 */
module MannWhitney {
  import opened Types

  type Sample = seq<real>

  // ---------------------------------------------------------------- pairwise counts

  /** Doubled points of `x` against `y`: a win, a tie or a loss. */
  function Points(x: real, y: real): nat {
    if x > y then 2 else if x == y then 1 else 0
  }

  /** Doubled points of `x` against a whole sample. */
  function Score(x: real, ys: Sample): nat {
    if ys == [] then 0 else Score(x, ys[..|ys| - 1]) + Points(x, ys[|ys| - 1])
  }

  /** The pairwise U of `xs` over `ys`, doubled. */
  function PairwiseU(xs: Sample, ys: Sample): nat {
    if xs == [] then 0 else PairwiseU(xs[..|xs| - 1], ys) + Score(xs[|xs| - 1], ys)
  }

  function Above(x: real, ys: Sample): nat {
    if ys == [] then 0 else Above(x, ys[..|ys| - 1]) + if ys[|ys| - 1] > x then 1 else 0
  }

  function Below(x: real, ys: Sample): nat {
    if ys == [] then 0 else Below(x, ys[..|ys| - 1]) + if ys[|ys| - 1] < x then 1 else 0
  }

  /** Pairs in which y is above x. */
  function PairsAbove(xs: Sample, ys: Sample): nat {
    if xs == [] then 0 else PairsAbove(xs[..|xs| - 1], ys) + Above(xs[|xs| - 1], ys)
  }

  function PairsBelow(xs: Sample, ys: Sample): nat {
    if xs == [] then 0 else PairsBelow(xs[..|xs| - 1], ys) + Below(xs[|xs| - 1], ys)
  }

  lemma {:induction false} ScoreOfJoined(x: real, ys: Sample, zs: Sample)
    ensures Score(x, ys + zs) == Score(x, ys) + Score(x, zs)
  {
    if zs == [] {
      assert ys + zs == ys;
    } else {
      ScoreOfJoined(x, ys, zs[..|zs| - 1]);
      assert (ys + zs)[..|ys + zs| - 1] == ys + zs[..|zs| - 1];
    }
  }

  /** Adding a column to the pairwise count. */
  lemma {:induction false} PairwiseAdd(xs: Sample, ys: Sample, y: real)
    ensures PairwiseU(xs, ys + [y]) + Score(y, xs) == PairwiseU(xs, ys) + 2 * |xs|
  {
    if xs != [] {
      PairwiseAdd(xs[..|xs| - 1], ys, y);
      assert (ys + [y])[..|ys|] == ys;
    }
  }

  /** The two directions share out every pair. */
  lemma {:induction false} PairwiseShared(xs: Sample, ys: Sample)
    ensures PairwiseU(xs, ys) + PairwiseU(ys, xs) == 2 * (|xs| * |ys|)
  {
    if ys == [] {
      NoPairs(xs);
    } else {
      var (front, y) := (ys[..|ys| - 1], ys[|ys| - 1]);
      assert front + [y] == ys;
      PairwiseShared(xs, front);
      PairwiseAdd(xs, front, y);
      TimesSucc(|xs|, |front|);
    }
  }

  lemma TimesSucc(a: nat, b: nat)
    ensures a * (b + 1) == a * b + a
  {
  }

  lemma {:induction false} NoPairs(xs: Sample)
    ensures PairwiseU(xs, []) == 0
  {
    if xs != [] {
      NoPairs(xs[..|xs| - 1]);
    }
  }

  // ---------------------------------------------------------------- ranks

  ghost predicate Holds(order: seq<nat>, i: nat) {
    exists k :: 0 <= k < |order| && order[k] == i
  }

  ghost predicate NoRepeat(order: seq<nat>) {
    forall a, b :: 0 <= a < b < |order| ==> order[a] != order[b]
  }

  ghost predicate Permutes(order: seq<nat>, n: nat) {
    && |order| == n
    && NoRepeat(order)
    && (forall k :: 0 <= k < n ==> order[k] < n)
    && (forall i: nat :: i < n ==> Holds(order, i))
  }

  /** The sample read in a given order of its positions. */
  function Arranged(values: Sample, order: seq<nat>): (r: Sample)
    requires forall k :: 0 <= k < |order| ==> order[k] < |values|
    ensures |r| == |order| && forall k :: 0 <= k < |r| ==> r[k] == values[order[k]]
  {
    seq(|order|, k requires 0 <= k < |order| => values[order[k]])
  }

  ghost predicate Ascending(s: Sample) {
    forall a, b :: 0 <= a <= b < |s| ==> s[a] <= s[b]
  }

  /** What `sorted(range(n), key=values)` returns: the positions in ascending order of value. */
  ghost predicate Sorts(values: Sample, order: seq<nat>) {
    Permutes(order, |values|) && Ascending(Arranged(values, order))
  }

  lemma PermutesWithout(order: seq<nat>, n: nat, p: nat)
    requires Permutes(order, n + 1) && p <= n && order[p] == n
    ensures Permutes(Without(order, p), n)
  {
    var rest := Without(order, p);
    forall i: nat | i < n
      ensures Holds(rest, i)
    {
      assert Holds(order, i);
      var q :| 0 <= q < |order| && order[q] == i;
      assert rest[if q < p then q else q - 1] == i;
    }
  }

  lemma ScoreWithout(x: real, all: Sample, p: nat)
    requires p < |all|
    ensures Score(x, all) == Score(x, Without(all, p)) + Points(x, all[p])
  {
    assert all == all[..p] + [all[p]] + all[p + 1..];
    ScoreOfJoined(x, all[..p], [all[p]]);
    ScoreOfJoined(x, all[..p] + [all[p]], all[p + 1..]);
    ScoreOfJoined(x, all[..p], all[p + 1..]);
    assert Score(x, [all[p]]) == Points(x, all[p]);
  }

  lemma ArrangedWithout(values: Sample, order: seq<nat>, p: nat)
    requires |values| > 0 && Permutes(order, |values|) && p < |order| && order[p] == |values| - 1
    ensures Permutes(Without(order, p), |values| - 1)
    ensures Arranged(values[..|values| - 1], Without(order, p)) == Without(Arranged(values, order), p)
  {
    PermutesWithout(order, |values| - 1, p);
    hide NoRepeat, Holds;
  }

  /** A score does not depend on the order of the sample. */
  lemma {:induction false} ScoreOfArranged(x: real, values: Sample, order: seq<nat>)
    requires Permutes(order, |values|)
    ensures Score(x, Arranged(values, order)) == Score(x, values)
    decreases |values|
  {
    if values == [] {
      assert Arranged(values, order) == values;
    } else {
      var n := |values| - 1;
      assert Holds(order, n);
      var p :| 0 <= p < |order| && order[p] == n;
      ArrangedWithout(values, order, p);
      ScoreOfArranged(x, values[..n], Without(order, p));
      ScoreWithout(x, Arranged(values, order), p);
    }
  }

  /** In an ascending sample the positions [i, j) hold exactly the values equal to that at `i`. */
  ghost predicate IsGroup(s: Sample, i: nat, j: nat) {
    && i < j <= |s|
    && (forall k :: 0 <= k < i ==> s[k] < s[i])
    && (forall k :: i <= k < j ==> s[k] == s[i])
    && (forall k :: j <= k < |s| ==> s[i] < s[k])
  }

  lemma {:induction false} ScoreOfPrefix(s: Sample, i: nat, j: nat, m: nat)
    requires IsGroup(s, i, j) && m <= |s|
    ensures Score(s[i], s[..m]) == if m <= i then 2 * m else if m <= j then i + m else i + j
  {
    if m > 0 {
      ScoreOfPrefix(s, i, j, m - 1);
      assert s[..m][..m - 1] == s[..m - 1];
    }
  }

  lemma GroupFound(s: Sample, i: nat, j: nat)
    requires Ascending(s) && i <= j < |s| && s[i] == s[j]
    requires (0 < i ==> s[i - 1] < s[i]) && (j + 1 < |s| ==> s[i] != s[j + 1])
    ensures IsGroup(s, i, j + 1)
  {
    forall k | i <= k <= j
      ensures s[k] == s[i]
    {
      assert s[i] <= s[k] <= s[j];
    }
  }

  /** The doubled average rank of a group is one more than the score of each of its values. */
  lemma GroupRank(values: Sample, order: seq<nat>, i: nat, j: nat)
    requires Sorts(values, order) && i <= j < |values| && values[order[i]] == values[order[j]]
    requires 0 < i ==> values[order[i - 1]] < values[order[i]]
    requires j + 1 < |values| ==> values[order[i]] != values[order[j + 1]]
    ensures forall k :: i <= k <= j ==> Score(values[order[k]], values) == i + j + 1
    ensures j + 1 < |values| ==> values[order[j]] < values[order[j + 1]]
  {
    hide Score, NoRepeat, Holds;
    var s := Arranged(values, order);
    GroupFound(s, i, j);
    ScoreOfPrefix(s, i, j + 1, |s|);
    assert s[..|s|] == s;
    ScoreOfArranged(s[i], values, order);
    forall k | i <= k <= j
      ensures values[order[k]] == s[i]
    {
      assert s[k] == s[i];
    }
  }

  /** Give the positions at [i, j] of the order the same rank. */
  method ShareRank(a: array<int>, order: seq<nat>, i: nat, j: nat, rank: int)
    requires Permutes(order, a.Length) && i <= j < |order|
    modifies a
    ensures forall l :: i <= l <= j ==> a[order[l]] == rank
    ensures forall l :: 0 <= l < i ==> a[order[l]] == old(a[order[l]])
  {
    hide Holds;
    for k := i to j + 1
      invariant forall l :: i <= l < k ==> a[order[l]] == rank
      invariant forall l :: 0 <= l < i ==> a[order[l]] == old(a[order[l]])
    {
      a[order[k]] := rank;
    }
  }

  lemma AllRanked(values: Sample, order: seq<nat>, ranks: seq<int>)
    requires Permutes(order, |values|) && |ranks| == |values|
    requires forall k :: 0 <= k < |order| ==> ranks[order[k]] == Score(values[order[k]], values) + 1
    ensures forall i :: 0 <= i < |values| ==> ranks[i] == Score(values[i], values) + 1
  {
    forall p | 0 <= p < |values|
      ensures ranks[p] == Score(values[p], values) + 1
    {
      assert Holds(order, p);
      var k :| 0 <= k < |order| && order[k] == p;
    }
  }

  /**
   Average ranks, doubled: the rank of a value is one more than its points against the whole
   sample, itself included.
   */
  method RankData(values: Sample, order: seq<nat>) returns (ranks: seq<int>)
    requires Sorts(values, order)
    ensures |ranks| == |values|
    ensures forall i :: 0 <= i < |values| ==> ranks[i] == Score(values[i], values) + 1
  {
    hide Ascending, Score, Holds;
    var n := |values|;
    var a := new int[n](_ => 0);
    var i := 0;
    while i < n
      invariant i <= n
      invariant 0 < i < n ==> values[order[i - 1]] < values[order[i]]
      invariant forall k :: 0 <= k < i ==> a[order[k]] == Score(values[order[k]], values) + 1
    {
      var j := i;
      while j + 1 < n && values[order[j + 1]] == values[order[i]]
        invariant i <= j < n && values[order[j]] == values[order[i]]
      {
        j := j + 1;
      }
      var rank := i + j + 2;
      GroupRank(values, order, i, j);
      ShareRank(a, order, i, j, rank);
      i := j + 1;
    }
    ranks := a[..];
    AllRanked(values, order, ranks);
  }

  // ---------------------------------------------------------------- sorting the positions

  /** Put position `p` after all positions whose value is not above its own. */
  function Inserted(values: Sample, order: seq<nat>, p: nat): (r: seq<nat>)
    requires p < |values| && forall k :: 0 <= k < |order| ==> order[k] < |values|
    ensures |r| == |order| + 1 && forall k :: 0 <= k < |r| ==> r[k] < |values|
    ensures forall k :: 0 <= k < |r| ==> r[k] == p || Holds(order, r[k])
  {
    if order == [] || values[order[|order| - 1]] <= values[p] then order + [p]
    else
      var front := order[..|order| - 1];
      assert forall k :: 0 <= k < |order| ==> Holds(order, order[k]);
      Inserted(values, front, p) + [order[|order| - 1]]
  }

  lemma {:induction false} InsertedHolds(values: Sample, order: seq<nat>, p: nat, i: nat)
    requires p < |values| && forall k :: 0 <= k < |order| ==> order[k] < |values|
    requires i == p || Holds(order, i)
    ensures Holds(Inserted(values, order, p), i)
  {
    var r := Inserted(values, order, p);
    if order == [] || values[order[|order| - 1]] <= values[p] {
      assert r[|order|] == p;
      if i != p {
        var k :| 0 <= k < |order| && order[k] == i;
        assert r[k] == i;
      }
    } else if i == order[|order| - 1] {
      assert r[|order|] == i;
    } else {
      var front := order[..|order| - 1];
      if i != p {
        var k :| 0 <= k < |order| && order[k] == i;
        assert front[k] == i;
      }
      InsertedHolds(values, front, p, i);
      var k :| 0 <= k < |order| && Inserted(values, front, p)[k] == i;
      assert r[k] == i;
    }
  }

  lemma {:induction false} InsertedFresh(values: Sample, order: seq<nat>, p: nat)
    requires p < |values| && forall k :: 0 <= k < |order| ==> order[k] < |values|
    requires NoRepeat(order) && !Holds(order, p)
    ensures NoRepeat(Inserted(values, order, p))
  {
    assert forall k :: 0 <= k < |order| ==> Holds(order, order[k]);
    if order != [] && values[order[|order| - 1]] > values[p] {
      var front := order[..|order| - 1];
      InsertedFresh(values, front, p);
      assert !Holds(front, order[|order| - 1]);
    }
  }

  lemma InsertedBounded(values: Sample, order: seq<nat>, p: nat, top: real)
    requires p < |values| && forall k :: 0 <= k < |order| ==> order[k] < |values| && values[order[k]] <= top
    requires values[p] <= top
    ensures forall k :: 0 <= k <= |order| ==> values[Inserted(values, order, p)[k]] <= top
  {
  }

  lemma {:induction false} InsertedAscending(values: Sample, order: seq<nat>, p: nat)
    requires p < |values| && forall k :: 0 <= k < |order| ==> order[k] < |values|
    requires Ascending(Arranged(values, order))
    ensures Ascending(Arranged(values, Inserted(values, order, p)))
  {
    var s := Arranged(values, order);
    var n := |order|;
    if order != [] && values[order[n - 1]] > values[p] {
      var front := order[..n - 1];
      assert Arranged(values, front) == s[..n - 1];
      InsertedAscending(values, front, p);
      var r := Inserted(values, front, p);
      InsertedBounded(values, front, p, s[n - 1]);
      assert Arranged(values, Inserted(values, order, p)) == Arranged(values, r) + [s[n - 1]];
    } else {
      assert Arranged(values, Inserted(values, order, p)) == s + [values[p]];
      assert n > 0 ==> s[n - 1] <= values[p];
    }
  }

  /** The first `n` positions in ascending order of value. */
  function SortedPositions(values: Sample, n: nat): (r: seq<nat>)
    requires n <= |values|
    ensures |r| == n && forall k :: 0 <= k < |r| ==> r[k] < |values|
  {
    if n == 0 then [] else Inserted(values, SortedPositions(values, n - 1), n - 1)
  }

  lemma {:induction false} SortedPositionsSort(values: Sample, n: nat)
    requires n <= |values|
    ensures Permutes(SortedPositions(values, n), n) && Ascending(Arranged(values, SortedPositions(values, n)))
  {
    hide Inserted, NoRepeat, Holds, Ascending;
    if n == 0 {
      NothingSorted(values);
    } else {
      SortedPositionsSort(values, n - 1);
      InsertedSorts(values, SortedPositions(values, n - 1), n - 1);
    }
  }

  lemma NothingSorted(values: Sample)
    ensures Permutes([], 0) && Ascending(Arranged(values, []))
  {
  }

  lemma InsertedSorts(values: Sample, order: seq<nat>, n: nat)
    requires n < |values| && Permutes(order, n) && Ascending(Arranged(values, order))
    ensures Permutes(Inserted(values, order, n), n + 1) && Ascending(Arranged(values, Inserted(values, order, n)))
  {
    hide Inserted, NoRepeat, Ascending;
    InsertedFresh(values, order, n);
    InsertedAscending(values, order, n);
    forall i: nat | i < n + 1
      ensures Holds(Inserted(values, order, n), i)
    {
      InsertedHolds(values, order, n, i);
    }
  }

  // ---------------------------------------------------------------- U

  function Sum(s: seq<int>): int {
    if s == [] then 0 else Sum(s[..|s| - 1]) + s[|s| - 1]
  }

  /** The ranks of the first sample add up to its internal pairs, its pairs with the second, and one each. */
  lemma {:induction false} RankSum(xs: Sample, all: Sample, ranks: seq<int>)
    requires |ranks| == |xs| && forall i :: 0 <= i < |xs| ==> ranks[i] == Score(xs[i], all) + 1
    ensures Sum(ranks) == PairwiseU(xs, all) + |xs|
  {
    if xs != [] {
      RankSum(xs[..|xs| - 1], all, ranks[..|xs| - 1]);
    }
  }

  lemma {:induction false} PairwiseOfJoined(xs: Sample, ys: Sample, zs: Sample)
    ensures PairwiseU(xs, ys + zs) == PairwiseU(xs, ys) + PairwiseU(xs, zs)
  {
    if xs != [] {
      PairwiseOfJoined(xs[..|xs| - 1], ys, zs);
      ScoreOfJoined(xs[|xs| - 1], ys, zs);
    }
  }

  /** The rank form of U is the pairwise count, whatever the ties. */
  lemma RankFormIsPairwise(xs: Sample, ys: Sample, ranks: seq<int>)
    requires |ranks| == |xs| + |ys|
    requires forall i :: 0 <= i < |ranks| ==> ranks[i] == Score((xs + ys)[i], xs + ys) + 1
    ensures Sum(ranks[..|xs|]) - |xs| * (|xs| + 1) == PairwiseU(xs, ys)
  {
    var n := |xs|;
    RankSum(xs, xs + ys, ranks[..n]);
    PairwiseOfJoined(xs, xs, ys);
    PairwiseShared(xs, xs);
    TimesSucc(n, n);
  }

  /** The U statistic, doubled: the smaller of the two pairwise counts. */
  method MannWhitneyU(xs: Sample, ys: Sample) returns (u1: int, u2: int, u: int)
    ensures u1 == PairwiseU(xs, ys) && u2 == PairwiseU(ys, xs)
    ensures u1 + u2 == 2 * (|xs| * |ys|)
    ensures u == Min(u1, u2) && 0 <= u <= |xs| * |ys|
  {
    var n1, n2 := |xs|, |ys|;
    var all := xs + ys;
    SortedPositionsSort(all, |all|);
    var ranks := RankData(all, SortedPositions(all, |all|));
    var r1 := Sum(ranks[..n1]);
    u1 := r1 - n1 * (n1 + 1);
    u2 := 2 * (n1 * n2) - u1;
    u := Min(u1, u2);
    RankFormIsPairwise(xs, ys, ranks);
    PairwiseShared(xs, ys);
  }

  // ---------------------------------------------------------------- Cliff's delta

  lemma {:induction false} ScoreCounts(x: real, ys: Sample)
    ensures Above(x, ys) - Below(x, ys) == |ys| - Score(x, ys)
  {
    if ys != [] {
      ScoreCounts(x, ys[..|ys| - 1]);
    }
  }

  /** Pairs above less pairs below are what U leaves of all the pairs. */
  lemma {:induction false} DeltaFromU(xs: Sample, ys: Sample)
    ensures PairsAbove(xs, ys) - PairsBelow(xs, ys) == |xs| * |ys| - PairwiseU(xs, ys)
  {
    if xs != [] {
      DeltaFromU(xs[..|xs| - 1], ys);
      ScoreCounts(xs[|xs| - 1], ys);
      TimesSucc(|ys|, |xs| - 1);
    }
  }

  /** Cliff's delta is one less U's share of the pairs, between -1 and 1. */
  lemma DeltaInUnit(xs: Sample, ys: Sample)
    requires |xs| * |ys| > 0
    ensures var d := (PairsAbove(xs, ys) - PairsBelow(xs, ys)) as real / (|xs| * |ys|) as real;
            -1.0 <= d <= 1.0 && d == 1.0 - PairwiseU(xs, ys) as real / (|xs| * |ys|) as real
  {
    var pairs := |xs| * |ys|;
    DeltaFromU(xs, ys);
    PairwiseShared(xs, ys);
    Share(PairwiseU(xs, ys), pairs);
  }

  lemma Share(u: nat, pairs: nat)
    requires 0 < pairs && u <= 2 * pairs
    ensures (pairs - u) as real / pairs as real == 1.0 - u as real / pairs as real
    ensures 0.0 <= u as real / pairs as real <= 2.0
  {
    var (v, p) := (u as real, pairs as real);
    assert (pairs - u) as real == p - v;
    Split(v, p);
  }

  lemma Split(v: real, p: real)
    requires p > 0.0
    ensures (p - v) / p == 1.0 - v / p
  {
    var q := v / p;
    var r := (p - v) / p;
    assert r * p == p - v == (1.0 - q) * p;
    Cancel(r, 1.0 - q, p);
  }

  lemma Cancel(a: real, b: real, p: real)
    requires p > 0.0 && a * p == b * p
    ensures a == b
  {
    assert (a - b) * p == 0.0;
  }

  /** P(y > x) - P(y < x); an empty sample divides by zero. */
  method CliffsDelta(xs: Sample, ys: Sample) returns (r: Option<real>)
    ensures r.None? <==> xs == [] || ys == []
    ensures r.Some? ==> |xs| * |ys| > 0 && r.value == 1.0 - PairwiseU(xs, ys) as real / (|xs| * |ys|) as real
    ensures r.Some? ==> -1.0 <= r.value <= 1.0
  {
    var more, less := 0, 0;
    for i := 0 to |xs|
      invariant more == PairsAbove(xs[..i], ys) && less == PairsBelow(xs[..i], ys)
    {
      var x := xs[i];
      for j := 0 to |ys|
        invariant more == PairsAbove(xs[..i], ys) + Above(x, ys[..j])
        invariant less == PairsBelow(xs[..i], ys) + Below(x, ys[..j])
      {
        assert ys[..j + 1][..j] == ys[..j];
        var y := ys[j];
        if y > x {
          more := more + 1;
        } else if y < x {
          less := less + 1;
        }
      }
      assert ys[..|ys|] == ys;
      assert xs[..i + 1][..i] == xs[..i];
    }
    assert xs[..|xs|] == xs;
    if |xs| * |ys| == 0 {
      return None;
    }
    DeltaInUnit(xs, ys);
    return Some((more - less) as real / (|xs| * |ys|) as real);
  }
}
