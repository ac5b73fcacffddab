/** Ranks with ties averaged (src/ragbench/evaluation/judge.py). Only comparisons are made of the values, so they
    enter as integers that compare alike; the ranks are exact. */
module Ranks {
  import opened Sorting

  // ----- the reference: counting

  /** How many of these are smaller than `v`. */
  function Below(values: seq<int>, v: int): nat {
    if values == [] then 0 else Below(values[..|values| - 1], v) + if values[|values| - 1] < v then 1 else 0
  }

  /** The smaller values come first, and equal ones share the mean of their places. */
  function RankFor(values: seq<int>, v: int): real {
    Below(values, v) as real + (multiset(values)[v] as real + 1.0) / 2.0
  }

  lemma {:induction false} BelowConcat(a: seq<int>, b: seq<int>, v: int)
    ensures Below(a + b, v) == Below(a, v) + Below(b, v)
  {
    if b == [] {
      assert a + b == a;
    } else {
      BelowConcat(a, b[..|b| - 1], v);
      assert (a + b)[..|a + b| - 1] == a + b[..|b| - 1];
    }
  }

  /** Counting does not depend on the order. */
  lemma {:induction false} BelowRearranged(a: seq<int>, b: seq<int>, v: int)
    requires multiset(a) == multiset(b)
    ensures Below(a, v) == Below(b, v)
  {
    if a == [] {
      assert |multiset(b)| == |b| && |multiset(a)| == 0;
    } else {
      var k, x := |a| - 1, a[|a| - 1];
      var i := Without(a, b);
      BelowRearranged(a[..k], b[..i] + b[i + 1..], v);
      BelowConcat(b[..i], b[i + 1..], v);
      BelowConcat(b[..i] + [x], b[i + 1..], v);
      assert b == b[..i] + [x] + b[i + 1..];
      assert (b[..i] + [x])[..i] == b[..i];
    }
  }

  /** Takes the last element of `a` out of `b`. */
  lemma Without(a: seq<int>, b: seq<int>) returns (i: nat)
    requires a != [] && multiset(a) == multiset(b)
    ensures i < |b| && b[i] == a[|a| - 1] && multiset(a[..|a| - 1]) == multiset(b[..i] + b[i + 1..])
  {
    var k, x := |a| - 1, a[|a| - 1];
    assert a == a[..k] + [x];
    assert x in multiset(a);
    i :| 0 <= i < |b| && b[i] == x;
    assert b == b[..i] + [x] + b[i + 1..];
    assert multiset(b) == multiset(b[..i]) + multiset{x} + multiset(b[i + 1..]);
    assert multiset(a) == multiset(a[..k]) + multiset{x};
    assert multiset(b[..i] + b[i + 1..]) == multiset(b) - multiset{x};
    assert multiset(a[..k]) == multiset(a) - multiset{x};
  }

  /** Ranks follow their values when these are rearranged. */
  lemma RankRearranged(values: seq<int>, other: seq<int>, v: int)
    requires multiset(values) == multiset(other)
    ensures RankFor(values, v) == RankFor(other, v)
  {
    BelowRearranged(values, other, v);
  }

  lemma {:induction false} BelowLess(values: seq<int>, v: int, w: int)
    requires v < w
    ensures Below(values, v) + multiset(values)[v] <= Below(values, w)
  {
    if values != [] {
      var before, last := values[..|values| - 1], values[|values| - 1];
      BelowLess(before, v, w);
      assert values == before + [last];
    }
  }

  /** A larger value has a larger rank. */
  lemma RanksOrder(values: seq<int>, v: int, w: int)
    requires v in values && w in values
    ensures v < w <==> RankFor(values, v) < RankFor(values, w)
  {
    assert v in multiset(values) && w in multiset(values);
    if v < w {
      BelowLess(values, v, w);
    } else if w < v {
      BelowLess(values, w, v);
    }
  }

  // ----- the places in ascending order

  ghost predicate IsAscending(s: seq<int>) {
    forall i, j :: 0 <= i < j < |s| ==> s[i] <= s[j]
  }

  /** A run of equal values: everything before is smaller and everything after is larger. */
  ghost predicate IsRun(sorted: seq<int>, start: nat, end: nat) {
    && start < end <= |sorted|
    && (forall p :: start <= p < end ==> sorted[p] == sorted[start])
    && (forall p :: 0 <= p < start ==> sorted[p] < sorted[start])
    && (forall p :: end <= p < |sorted| ==> sorted[p] > sorted[start])
  }

  lemma {:induction false} AllBelow(s: seq<int>, v: int)
    requires forall p :: 0 <= p < |s| ==> s[p] < v
    ensures Below(s, v) == |s| && multiset(s)[v] == 0
  {
    if s != [] {
      AllBelow(s[..|s| - 1], v);
      assert s == s[..|s| - 1] + [s[|s| - 1]];
    }
  }

  lemma {:induction false} AllEqual(s: seq<int>, v: int)
    requires forall p :: 0 <= p < |s| ==> s[p] == v
    ensures Below(s, v) == 0 && multiset(s)[v] == |s|
  {
    if s != [] {
      AllEqual(s[..|s| - 1], v);
      assert s == s[..|s| - 1] + [s[|s| - 1]];
    }
  }

  lemma {:induction false} AllAbove(s: seq<int>, v: int)
    requires forall p :: 0 <= p < |s| ==> s[p] > v
    ensures Below(s, v) == 0 && multiset(s)[v] == 0
  {
    if s != [] {
      AllAbove(s[..|s| - 1], v);
      assert s == s[..|s| - 1] + [s[|s| - 1]];
    }
  }

  lemma ThreeParts(a: seq<int>, b: seq<int>, c: seq<int>, v: int)
    requires forall p :: 0 <= p < |a| ==> a[p] < v
    requires forall p :: 0 <= p < |b| ==> b[p] == v
    requires forall p :: 0 <= p < |c| ==> c[p] > v
    ensures Below(a + b + c, v) == |a| && multiset(a + b + c)[v] == |b|
  {
    AllBelow(a, v);
    AllEqual(b, v);
    AllAbove(c, v);
    BelowConcat(a + b, c, v);
    BelowConcat(a, b, v);
  }

  /** The rank of a run is the mean of its places, counted from 1. */
  lemma RunRank(sorted: seq<int>, start: nat, end: nat)
    requires IsRun(sorted, start, end)
    ensures RankFor(sorted, sorted[start]) == (start + 1 + end) as real / 2.0
  {
    ThreeParts(sorted[..start], sorted[start..end], sorted[end..], sorted[start]);
    assert sorted == sorted[..start] + sorted[start..end] + sorted[end..];
  }

  function Sum(s: seq<real>): real {
    if s == [] then 0.0 else Sum(s[..|s| - 1]) + s[|s| - 1]
  }

  /** The ranks of some of the values. */
  function RanksOf(values: seq<int>, some: seq<int>): (ranks: seq<real>)
    ensures |ranks| == |some| && forall i :: 0 <= i < |some| ==> ranks[i] == RankFor(values, some[i])
  {
    seq(|some|, i requires 0 <= i < |some| => RankFor(values, some[i]))
  }

  lemma {:induction false} SumRun(s: seq<real>, start: nat, end: nat, x: real)
    requires start <= end <= |s| && forall p :: start <= p < end ==> s[p] == x
    ensures Sum(s[..end]) == Sum(s[..start]) + Repeated(end - start, x)
  {
    if start < end {
      SumRun(s, start, end - 1, x);
      RepeatedNext(end - 1 - start, x);
      assert s[..end][..end - 1] == s[..end - 1];
    }
  }

  /** The sum of `count` equal numbers. */
  function Repeated(count: nat, x: real): real {
    count as real * x
  }

  lemma RepeatedNext(count: nat, x: real)
    ensures Repeated(count + 1, x) == Repeated(count, x) + x
  {
  }

  // ----- rearranging the summands

  function ValuesAt(values: seq<int>, at: seq<int>): (vs: seq<int>)
    ensures |vs| == |at| && forall i :: 0 <= i < |at| && 0 <= at[i] < |values| ==> vs[i] == values[at[i]]
  {
    seq(|at|, i requires 0 <= i < |at| => KeyAt(values, at[i]))
  }

  function KeyAt(values: seq<int>, i: int): int {
    if 0 <= i < |values| then values[i] else 0
  }

  lemma ValuesConcat(values: seq<int>, a: seq<int>, b: seq<int>)
    ensures ValuesAt(values, a + b) == ValuesAt(values, a) + ValuesAt(values, b)
  {
  }

  /** Taking one place out takes its value out. */
  lemma ValuesTaken(values: seq<int>, s: seq<int>, i: nat)
    requires i < |s|
    ensures multiset(ValuesAt(values, s)) ==
      multiset(ValuesAt(values, s[..i] + s[i + 1..])) + multiset{KeyAt(values, s[i])}
  {
    ValuesConcat(values, s[..i], s[i + 1..]);
    ValuesConcat(values, s[..i], [s[i]]);
    ValuesConcat(values, s[..i] + [s[i]], s[i + 1..]);
    assert s == s[..i] + [s[i]] + s[i + 1..];
  }

  lemma {:induction false} ValuesRearranged(values: seq<int>, a: seq<int>, b: seq<int>)
    requires multiset(a) == multiset(b)
    ensures multiset(ValuesAt(values, a)) == multiset(ValuesAt(values, b))
  {
    if a == [] {
      assert |multiset(b)| == |b| && |multiset(a)| == 0;
    } else {
      var k := |a| - 1;
      var i := Without(a, b);
      ValuesRearranged(values, a[..k], b[..i] + b[i + 1..]);
      assert a[..k] + a[k + 1..] == a[..k];
      ValuesTaken(values, a, k);
      ValuesTaken(values, b, i);
    }
  }

  lemma {:induction false} SumConcat(a: seq<real>, b: seq<real>)
    ensures Sum(a + b) == Sum(a) + Sum(b)
  {
    if b == [] {
      assert a + b == a;
    } else {
      SumConcat(a, b[..|b| - 1]);
      assert (a + b)[..|a + b| - 1] == a + b[..|b| - 1];
    }
  }

  lemma SumRanksConcat(values: seq<int>, a: seq<int>, b: seq<int>)
    ensures Sum(RanksOf(values, a + b)) == Sum(RanksOf(values, a)) + Sum(RanksOf(values, b))
  {
    assert RanksOf(values, a + b) == RanksOf(values, a) + RanksOf(values, b);
    SumConcat(RanksOf(values, a), RanksOf(values, b));
  }

  lemma SumTaken(values: seq<int>, s: seq<int>, i: nat)
    requires i < |s|
    ensures Sum(RanksOf(values, s)) == Sum(RanksOf(values, s[..i] + s[i + 1..])) + RankFor(values, s[i])
  {
    SumRanksConcat(values, s[..i], s[i + 1..]);
    SumRanksConcat(values, s[..i], [s[i]]);
    SumRanksConcat(values, s[..i] + [s[i]], s[i + 1..]);
    assert s == s[..i] + [s[i]] + s[i + 1..];
    assert RanksOf(values, [s[i]])[..0] == [];
  }

  lemma {:induction false} SumRearranged(values: seq<int>, a: seq<int>, b: seq<int>)
    requires multiset(a) == multiset(b)
    ensures Sum(RanksOf(values, a)) == Sum(RanksOf(values, b))
  {
    if a == [] {
      assert |multiset(b)| == |b| && |multiset(a)| == 0;
    } else {
      var k := |a| - 1;
      var i := Without(a, b);
      SumRearranged(values, a[..k], b[..i] + b[i + 1..]);
      assert a[..k] + a[k + 1..] == a[..k];
      SumTaken(values, a, k);
      SumTaken(values, b, i);
    }
  }

  // ----- the loop over tie runs

  function Indices(n: nat): (indices: seq<int>)
    ensures |indices| == n && forall i :: 0 <= i < n ==> indices[i] == i
  {
    seq(n, i => i)
  }

  /** The places sorted by value. */
  ghost predicate IsOrder(values: seq<int>, ordered: seq<int>) {
    && |ordered| == |values| && multiset(ordered) == multiset(Indices(|values|)) && Distinct(ordered)
    && (forall p :: 0 <= p < |ordered| ==> 0 <= ordered[p] < |values|)
    && IsAscending(ValuesAt(values, ordered))
  }

  lemma OrderExact(values: seq<int>, ordered: seq<int>)
    requires ordered == SortBy(Indices(|values|), (i: int) => KeyAt(values, i))
    ensures IsOrder(values, ordered)
  {
    var key := (i: int) => KeyAt(values, i);
    SortBySorts(Indices(|values|), key);
    RearrangedDistinct(Indices(|values|), ordered);
    assert |multiset(ordered)| == |ordered| && |multiset(Indices(|values|))| == |values|;
    forall p | 0 <= p < |ordered| ensures 0 <= ordered[p] < |values| {
      SameMembers(Indices(|values|), ordered, ordered[p]);
    }
    forall p, q | 0 <= p < q < |ordered| ensures ValuesAt(values, ordered)[p] <= ValuesAt(values, ordered)[q] {
      assert key(ordered[p]) <= key(ordered[q]);
    }
  }

  lemma SortedValues(values: seq<int>, ordered: seq<int>)
    requires IsOrder(values, ordered)
    ensures multiset(ValuesAt(values, ordered)) == multiset(values)
  {
    ValuesRearranged(values, ordered, Indices(|values|));
    assert ValuesAt(values, Indices(|values|)) == values;
  }

  /** Of the ordered places, those of the run hold `x` and the others what they held. */
  ghost predicate Spread(before: seq<real>, after: seq<real>, ordered: seq<int>, start: nat, end: nat, x: real) {
    |after| == |before| && forall p :: 0 <= p < |ordered| ==>
      0 <= ordered[p] < |after| && after[ordered[p]] == if start <= p < end then x else before[ordered[p]]
  }

  /** Gives every place of a run the same rank. */
  method FillRun(ranks: array<real>, ordered: seq<int>, start: nat, end: nat, x: real)
    requires start <= end <= |ordered| && Distinct(ordered)
    requires forall p :: 0 <= p < |ordered| ==> 0 <= ordered[p] < ranks.Length
    modifies ranks
    ensures Spread(old(ranks[..]), ranks[..], ordered, start, end, x)
  {
    for position := start to end
      invariant forall p :: 0 <= p < |ordered| ==>
        ranks[ordered[p]] == if start <= p < position then x else old(ranks[..])[ordered[p]]
    {
      ranks[ordered[position]] := x;
    }
  }

  /** The places of one run of ties, by value. */
  method RunEnd(values: seq<int>, ordered: seq<int>, start: nat) returns (end: nat)
    requires start < |ordered| && forall p :: 0 <= p < |ordered| ==> 0 <= ordered[p] < |values|
    ensures start < end <= |ordered|
    ensures forall p :: start <= p < end ==> values[ordered[p]] == values[ordered[start]]
    ensures end < |ordered| ==> values[ordered[end]] != values[ordered[start]]
  {
    end := start + 1;
    while end < |ordered| && values[ordered[end]] == values[ordered[start]]
      invariant start < end <= |ordered|
      invariant forall p :: start <= p < end ==> values[ordered[p]] == values[ordered[start]]
    {
      end := end + 1;
    }
  }

  /** The ranks of the ordered places, one run of ties after the other. */
  method RankRuns(values: seq<int>, ordered: seq<int>, ranks: array<real>)
    requires IsOrder(values, ordered) && ranks.Length == |values|
    modifies ranks
    ensures forall p :: 0 <= p < |ordered| ==> ranks[ordered[p]] == RanksOf(values, ValuesAt(values, ordered))[p]
    ensures Sum(RanksOf(values, ValuesAt(values, ordered))) == Triangle(|values|)
  {
    ghost var sorted := ValuesAt(values, ordered);
    SortedValues(values, ordered);
    ghost var summands := RanksOf(values, sorted);
    var start := 0;
    while start < |ordered|
      invariant 0 <= start <= |ordered| && (0 < start < |ordered| ==> sorted[start - 1] < sorted[start])
      invariant Filled(ranks[..], ordered, summands, start)
      invariant Sum(summands[..start]) == Triangle(start)
    {
      var end := RunEnd(values, ordered, start);
      RunFound(values, sorted, start, end);
      var averageRank := (start + 1 + end) as real / 2.0;
      ghost var before := ranks[..];
      FillRun(ranks, ordered, start, end, averageRank);
      FilledNext(before, ranks[..], ordered, summands, start, end, averageRank);
      SumNext(summands, start, end, averageRank);
      start := end;
    }
    assert summands[..|ordered|] == summands;
  }

  /** The first `n` of the ordered places have their ranks. */
  ghost predicate Filled(ranks: seq<real>, ordered: seq<int>, summands: seq<real>, n: nat) {
    && n <= |ordered| == |summands| && (forall p :: 0 <= p < n ==> 0 <= ordered[p] < |ranks|)
    && forall p :: 0 <= p < n ==> ranks[ordered[p]] == summands[p]
  }

  lemma FilledNext(before: seq<real>, after: seq<real>, ordered: seq<int>, summands: seq<real>, start: nat, end: nat,
                   x: real)
    requires Filled(before, ordered, summands, start) && start <= end <= |ordered|
    requires Spread(before, after, ordered, start, end, x) && forall p :: start <= p < end ==> summands[p] == x
    ensures Filled(after, ordered, summands, end)
  {
  }

  /** Every value's rank by counting; together the ranks are those of a list without ties. */
  method RankValues(values: seq<int>) returns (ranks: array<real>)
    ensures fresh(ranks) && ranks.Length == |values|
    ensures forall i :: 0 <= i < |values| ==> ranks[i] == RankFor(values, values[i])
    ensures Sum(ranks[..]) == Triangle(|values|)
  {
    var ordered := SortBy(Indices(|values|), (i: int) => KeyAt(values, i));
    OrderExact(values, ordered);
    ranks := new real[|values|](i => 0.0);
    RankRuns(values, ordered, ranks);
    RanksSum(values, ordered, ranks[..]);
  }

  lemma RanksSum(values: seq<int>, ordered: seq<int>, ranks: seq<real>)
    requires IsOrder(values, ordered) && |ranks| == |values|
    requires forall p :: 0 <= p < |ordered| ==> ranks[ordered[p]] == RanksOf(values, ValuesAt(values, ordered))[p]
    requires Sum(RanksOf(values, ValuesAt(values, ordered))) == Triangle(|values|)
    ensures forall i :: 0 <= i < |values| ==> ranks[i] == RankFor(values, values[i])
    ensures Sum(ranks) == Triangle(|values|)
  {
    SortedValues(values, ordered);
    SumRearranged(values, ValuesAt(values, ordered), values);
    AllRanked(values, ordered, ranks);
    assert ranks == RanksOf(values, values);
  }

  /** 1 + 2 + ... + n. */
  function Triangle(n: nat): real {
    if n == 0 then 0.0 else Triangle(n - 1) + n as real
  }

  lemma {:induction false} TriangleIs(n: nat)
    ensures Triangle(n) == n as real * (n as real + 1.0) / 2.0
  {
    if n > 0 {
      TriangleIs(n - 1);
      var m := n as real;
      assert (n - 1) as real == m - 1.0;
      assert (m - 1.0) * m / 2.0 + m == m * (m + 1.0) / 2.0;
    }
  }

  lemma RunFound(values: seq<int>, sorted: seq<int>, start: nat, end: nat)
    requires IsAscending(sorted) && multiset(sorted) == multiset(values) && start < end <= |sorted|
    requires start > 0 ==> sorted[start - 1] < sorted[start]
    requires forall p :: start <= p < end ==> sorted[p] == sorted[start]
    requires end < |sorted| ==> sorted[end] != sorted[start]
    ensures forall p :: start <= p < end ==> RankFor(values, sorted[p]) == (start + 1 + end) as real / 2.0
    ensures end < |sorted| ==> sorted[end - 1] < sorted[end]
  {
    RunRank(sorted, start, end);
    RankRearranged(values, sorted, sorted[start]);
  }

  lemma SumNext(s: seq<real>, start: nat, end: nat, x: real)
    requires start < end <= |s| && x == (start + 1 + end) as real / 2.0 && Sum(s[..start]) == Triangle(start)
    requires forall p :: start <= p < end ==> s[p] == x
    ensures Sum(s[..end]) == Triangle(end)
  {
    SumRun(s, start, end, x);
    RunTotal(start, end, x);
  }

  /** A run of ties with the average rank adds what the ranks without ties would add. */
  lemma RunTotal(a: nat, b: nat, x: real)
    requires a <= b && x == (a + 1 + b) as real / 2.0
    ensures Triangle(a) + Repeated(b - a, x) == Triangle(b)
  {
    TriangleIs(a);
    TriangleIs(b);
    var u, v := a as real, b as real;
    assert (b - a) as real == v - u && x == (u + 1.0 + v) / 2.0;
    assert (v - u) * ((u + 1.0 + v) / 2.0) == v * (v + 1.0) / 2.0 - u * (u + 1.0) / 2.0;
  }

  lemma AllRanked(values: seq<int>, ordered: seq<int>, ranks: seq<real>)
    requires IsOrder(values, ordered) && |ranks| == |values|
    requires forall p :: 0 <= p < |ordered| ==> ranks[ordered[p]] == RanksOf(values, ValuesAt(values, ordered))[p]
    ensures forall i :: 0 <= i < |values| ==> ranks[i] == RankFor(values, values[i])
  {
    forall i | 0 <= i < |values| ensures ranks[i] == RankFor(values, values[i]) {
      assert Indices(|values|)[i] == i;
      SameMembers(Indices(|values|), ordered, i);
      var p :| 0 <= p < |ordered| && ordered[p] == i;
    }
  }
}
