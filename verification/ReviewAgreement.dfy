/** Cohen's kappa of paired reviews (src/ragbench/benchmark/splits.py), in exact arithmetic. */
module ReviewAgreement {
  import opened Results

  datatype Decision = Accept | Correct | Reject

  type Pair = (Decision, Decision)

  /** Reviewers are numbered in the order of their identifiers. */
  datatype Review = Review(question: string, reviewer: nat, decision: Decision)

  datatype Agreement = Agreement(items: nat, observed: real, kappa: real)

  datatype AgreementError = TooFewItems | NotPaired

  function LeftCount(pairs: seq<Pair>, d: Decision): nat {
    if pairs == [] then 0 else LeftCount(pairs[..|pairs| - 1], d) + if pairs[|pairs| - 1].0 == d then 1 else 0
  }

  function RightCount(pairs: seq<Pair>, d: Decision): nat {
    if pairs == [] then 0 else RightCount(pairs[..|pairs| - 1], d) + if pairs[|pairs| - 1].1 == d then 1 else 0
  }

  /** Pairs in which both reviewers decided `d`. */
  function BothCount(pairs: seq<Pair>, d: Decision): nat {
    if pairs == [] then 0 else BothCount(pairs[..|pairs| - 1], d) + if pairs[|pairs| - 1] == (d, d) then 1 else 0
  }

  function Matches(pairs: seq<Pair>): nat {
    if pairs == [] then 0
    else
      Matches(pairs[..|pairs| - 1])
      + if pairs[|pairs| - 1].0 == pairs[|pairs| - 1].1 then 1 else 0
  }

  function Part(count: nat, n: nat): real
    requires n > 0
  {
    count as real / n as real
  }

  function Observed(pairs: seq<Pair>): real
    requires pairs != []
  {
    Part(Matches(pairs), |pairs|)
  }

  /** One decision's share of the agreement expected by chance. */
  function Share(pairs: seq<Pair>, d: Decision): real
    requires pairs != []
  {
    Part(LeftCount(pairs, d), |pairs|) * Part(RightCount(pairs, d), |pairs|)
  }

  function Expected(pairs: seq<Pair>): real
    requires pairs != []
  {
    Share(pairs, Accept) + Share(pairs, Correct) + Share(pairs, Reject)
  }

  // ----- counting

  lemma {:induction false} LeftAddsUp(pairs: seq<Pair>)
    ensures LeftCount(pairs, Accept) + LeftCount(pairs, Correct) + LeftCount(pairs, Reject) == |pairs|
  {
    if pairs != [] {
      LeftAddsUp(pairs[..|pairs| - 1]);
    }
  }

  lemma {:induction false} RightAddsUp(pairs: seq<Pair>)
    ensures RightCount(pairs, Accept) + RightCount(pairs, Correct) + RightCount(pairs, Reject) == |pairs|
  {
    if pairs != [] {
      RightAddsUp(pairs[..|pairs| - 1]);
    }
  }

  lemma {:induction false} BothAddsUp(pairs: seq<Pair>)
    ensures BothCount(pairs, Accept) + BothCount(pairs, Correct) + BothCount(pairs, Reject) == Matches(pairs) <= |pairs|
  {
    if pairs != [] {
      BothAddsUp(pairs[..|pairs| - 1]);
    }
  }

  /** One decision's marginals overlap in the pairs that agree on it. */
  lemma {:induction false} MarginsOverlap(pairs: seq<Pair>, d: Decision)
    ensures LeftCount(pairs, d) <= |pairs| && RightCount(pairs, d) <= |pairs| && BothCount(pairs, d) <= |pairs|
    ensures LeftCount(pairs, d) + RightCount(pairs, d) <= |pairs| + BothCount(pairs, d)
  {
    if pairs != [] {
      MarginsOverlap(pairs[..|pairs| - 1], d);
    }
  }

  // ----- the bound, in shares of the number of pairs

  lemma TimesMonotone(u: real, v: real, w: real)
    requires u <= v && w >= 0.0
    ensures u * w <= v * w
  {
  }

  lemma Swap(x: real, y: real)
    ensures x * y == y * x
  {
  }

  lemma AtMost(x: real, z: real)
    requires x <= 1.0 && z >= 0.0
    ensures x * z <= z
  {
  }

  lemma Scaled(x: real, y: real, z: real, w: real, xw: real, yw: real, zw: real)
    requires x + y <= 1.0 + z && w >= 0.0
    requires xw == x * w && yw == y * w && zw == z * w
    ensures xw + yw <= w + zw
  {
    TimesMonotone(x + y, 1.0 + z, w);
  }

  lemma Squares(x: real, y: real, xy: real, xx: real, yy: real)
    requires xy == x * y && xx == x * x && yy == y * y
    ensures 2.0 * xy <= xx + yy
  {
    var d := (x - y) * (x - y);
    assert d >= 0.0;
    assert d == xx - 2.0 * xy + yy;
  }

  lemma HalfBound(x: real, y: real, z: real, xx: real, yx: real)
    requires 0.0 <= x <= 1.0 && 0.0 <= z && x + y <= 1.0 + z && xx == x * x && yx == y * x
    ensures xx + yx <= x + z
  {
    Scaled(x, y, z, x, xx, yx, z * x);
    Swap(x, z);
    AtMost(x, z);
  }

  lemma Combined(x: real, y: real, z: real, xy: real, xx: real, yy: real)
    requires 2.0 * xy <= xx + yy && xx + xy <= x + z && xy + yy <= y + z
    ensures 4.0 * xy <= x + y + 2.0 * z
  {
  }

  lemma ProductBound(x: real, y: real, z: real, xy: real, yx: real, xx: real, yy: real)
    requires 0.0 <= x <= 1.0 && 0.0 <= y <= 1.0 && 0.0 <= z && x + y <= 1.0 + z
    requires xy == x * y && yx == y * x && yx == xy && xx == x * x && yy == y * y
    ensures 4.0 * xy <= x + y + 2.0 * z
  {
    Squares(x, y, xy, xx, yy);
    HalfBound(x, y, z, xx, yx);
    HalfBound(y, x, z, yy, xy);
    Combined(x, y, z, xy, xx, yy);
  }

  /** Marginals x and y whose sum exceeds 1 by at most the joint share z. */
  predicate Overlapping(x: real, y: real, z: real) {
    0.0 <= x <= 1.0 && 0.0 <= y <= 1.0 && 0.0 <= z && x + y <= 1.0 + z
  }

  /** Their product is at most this. */
  lemma ShareBound(x: real, y: real, z: real, xy: real)
    requires Overlapping(x, y, z) && xy == x * y
    ensures 0.0 <= xy && 4.0 * xy <= x + y + 2.0 * z
  {
    Swap(x, y);
    ProductBound(x, y, z, xy, y * x, x * x, y * y);
    TimesMonotone(0.0, x, y);
  }

  // ----- shares

  lemma Strictly(u: real, v: real, n: real)
    requires n > 0.0 && u < v
    ensures u * n < v * n
  {
  }

  lemma Distribute(x: real, y: real, n: real)
    ensures (x + y) * n == x * n + y * n
  {
  }

  lemma Cancel(u: real, v: real, n: real)
    requires n > 0.0 && u * n <= v * n
    ensures u <= v
  {
    if v < u {
      Strictly(v, u, n);
    }
  }

  lemma PartTimes(count: nat, n: nat)
    requires n > 0
    ensures Part(count, n) * n as real == count as real
  {
  }

  lemma InUnit(count: nat, n: nat)
    requires 0 < n && count <= n
    ensures 0.0 <= Part(count, n) <= 1.0
  {
    PartTimes(count, n);
    Cancel(0.0, Part(count, n), n as real);
    Cancel(Part(count, n), 1.0, n as real);
  }

  lemma OverlapShares(x: real, y: real, z: real, m: real, xm: real, ym: real, zm: real)
    requires m > 0.0 && xm == x * m && ym == y * m && zm == z * m && xm + ym <= m + zm
    ensures x + y <= 1.0 + z
  {
    Distribute(x, y, m);
    Distribute(1.0, z, m);
    Cancel(x + y, 1.0 + z, m);
  }

  lemma SharesOverlap(pairs: seq<Pair>, d: Decision)
    requires pairs != []
    ensures Overlapping(Part(LeftCount(pairs, d), |pairs|), Part(RightCount(pairs, d), |pairs|),
      Part(BothCount(pairs, d), |pairs|))
  {
    MarginsOverlap(pairs, d);
    CountsOverlap(LeftCount(pairs, d), RightCount(pairs, d), BothCount(pairs, d), |pairs|);
  }

  lemma CountsOverlap(a: nat, b: nat, c: nat, n: nat)
    requires 0 < n && a <= n && b <= n && c <= n && a + b <= n + c
    ensures Overlapping(Part(a, n), Part(b, n), Part(c, n))
  {
    InUnit(a, n);
    InUnit(b, n);
    InUnit(c, n);
    PartTimes(a, n);
    PartTimes(b, n);
    PartTimes(c, n);
    OverlapShares(Part(a, n), Part(b, n), Part(c, n), n as real, a as real, b as real, c as real);
  }

  lemma ThreeSum(x: real, y: real, z: real, t: real, m: real)
    requires m > 0.0 && x * m + y * m + z * m == t * m
    ensures x + y + z == t
  {
    Distribute(x, y, m);
    Distribute(x + y, z, m);
    Cancel(x + y + z, t, m);
    Cancel(t, x + y + z, m);
  }

  lemma ThirdsAddUp(a: nat, b: nat, c: nat, total: nat, n: nat)
    requires n > 0 && a + b + c == total
    ensures Part(a, n) + Part(b, n) + Part(c, n) == Part(total, n)
  {
    PartTimes(a, n);
    PartTimes(b, n);
    PartTimes(c, n);
    PartTimes(total, n);
    ThreeSum(Part(a, n), Part(b, n), Part(c, n), Part(total, n), n as real);
  }

  lemma Whole(n: nat)
    requires n > 0
    ensures Part(n, n) == 1.0
  {
  }

  lemma MarginsAddUp(pairs: seq<Pair>)
    requires pairs != []
    ensures var n := |pairs|;
      && Part(LeftCount(pairs, Accept), n) + Part(LeftCount(pairs, Correct), n) + Part(LeftCount(pairs, Reject), n) ==
        1.0
      && Part(RightCount(pairs, Accept), n) + Part(RightCount(pairs, Correct), n) +
        Part(RightCount(pairs, Reject), n) == 1.0
      && Part(BothCount(pairs, Accept), n) + Part(BothCount(pairs, Correct), n) + Part(BothCount(pairs, Reject), n) ==
        Observed(pairs)
  {
    var n := |pairs|;
    Whole(n);
    LeftAddsUp(pairs);
    RightAddsUp(pairs);
    BothAddsUp(pairs);
    ThirdsAddUp(LeftCount(pairs, Accept), LeftCount(pairs, Correct), LeftCount(pairs, Reject), n, n);
    ThirdsAddUp(RightCount(pairs, Accept), RightCount(pairs, Correct), RightCount(pairs, Reject), n, n);
    ThirdsAddUp(BothCount(pairs, Accept), BothCount(pairs, Correct), BothCount(pairs, Reject), Matches(pairs), n);
  }

  lemma ShareOf(pairs: seq<Pair>, d: Decision)
    requires pairs != []
    ensures 0.0 <= Share(pairs, d)
    ensures 4.0 * Share(pairs, d) <= Part(LeftCount(pairs, d), |pairs|) + Part(RightCount(pairs, d), |pairs|) +
      2.0 * Part(BothCount(pairs, d), |pairs|)
  {
    SharesOverlap(pairs, d);
    ShareBound(Part(LeftCount(pairs, d), |pairs|), Part(RightCount(pairs, d), |pairs|),
      Part(BothCount(pairs, d), |pairs|), Share(pairs, d));
  }

  /** Chance agreement is at most halfway between the observed agreement and certainty. */
  lemma ExpectedBound(pairs: seq<Pair>)
    requires pairs != []
    ensures 0.0 <= Observed(pairs) <= 1.0
    ensures 0.0 <= Expected(pairs) && 2.0 * Expected(pairs) <= 1.0 + Observed(pairs)
  {
    BothAddsUp(pairs);
    InUnit(Matches(pairs), |pairs|);
    ShareOf(pairs, Accept);
    ShareOf(pairs, Correct);
    ShareOf(pairs, Reject);
    MarginsAddUp(pairs);
  }

  /** Certain chance agreement forces observed agreement, so the other branch never divides by zero. */
  lemma NoDivisionByZero(pairs: seq<Pair>)
    requires pairs != []
    ensures Expected(pairs) <= 1.0
    ensures Expected(pairs) == 1.0 ==> Observed(pairs) == 1.0
  {
    ExpectedBound(pairs);
  }

  function Kappa(pairs: seq<Pair>): (kappa: real)
    requires pairs != []
    ensures -1.0 <= kappa <= 1.0
    ensures kappa == 1.0 <==> Observed(pairs) == 1.0
  {
    NoDivisionByZero(pairs);
    if Expected(pairs) == 1.0 && Observed(pairs) == 1.0 then 1.0
    else
      KappaInRange(pairs);
      (Observed(pairs) - Expected(pairs)) / (1.0 - Expected(pairs))
  }

  lemma KappaInRange(pairs: seq<Pair>)
    requires pairs != [] && Expected(pairs) != 1.0
    ensures Expected(pairs) < 1.0
    ensures var kappa := (Observed(pairs) - Expected(pairs)) / (1.0 - Expected(pairs));
      -1.0 <= kappa <= 1.0 && (kappa == 1.0 <==> Observed(pairs) == 1.0)
  {
    ExpectedBound(pairs);
    Quotient(Observed(pairs) - Expected(pairs), 1.0 - Expected(pairs));
  }

  lemma QuotientTimes(a: real, b: real)
    requires b > 0.0
    ensures a / b * b == a
  {
  }

  lemma Below(q: real, a: real, b: real)
    requires b > 0.0 && q * b == a && a <= b
    ensures q <= 1.0
  {
    if 1.0 < q {
      Strictly(1.0, q, b);
    }
  }

  lemma Above(q: real, a: real, b: real)
    requires b > 0.0 && q * b == a && -b <= a
    ensures -1.0 <= q
  {
    if q < -1.0 {
      Strictly(q, -1.0, b);
    }
  }

  lemma One(q: real, a: real, b: real)
    requires b > 0.0 && q * b == a
    ensures q == 1.0 <==> a == b
  {
    if q < 1.0 {
      Strictly(q, 1.0, b);
    }
    if 1.0 < q {
      Strictly(1.0, q, b);
    }
  }

  lemma Quotient(a: real, b: real)
    requires b > 0.0 && -b <= a <= b
    ensures -1.0 <= a / b <= 1.0
    ensures a / b == 1.0 <==> a == b
  {
    QuotientTimes(a, b);
    Below(a / b, a, b);
    Above(a / b, a, b);
    One(a / b, a, b);
  }

  // ----- what the shares and kappa are

  function Lefts(pairs: seq<Pair>): (ds: seq<Decision>)
    ensures |ds| == |pairs| && forall i :: 0 <= i < |pairs| ==> ds[i] == pairs[i].0
  {
    seq(|pairs|, i requires 0 <= i < |pairs| => pairs[i].0)
  }

  function Rights(pairs: seq<Pair>): (ds: seq<Decision>)
    ensures |ds| == |pairs| && forall i :: 0 <= i < |pairs| ==> ds[i] == pairs[i].1
  {
    seq(|pairs|, i requires 0 <= i < |pairs| => pairs[i].1)
  }

  /** The places where the two decisions agree. */
  function Agreeing(pairs: seq<Pair>): set<nat> {
    set i: nat | i < |pairs| && pairs[i].0 == pairs[i].1
  }

  lemma {:induction false} CountsExact(pairs: seq<Pair>, d: Decision)
    ensures LeftCount(pairs, d) == multiset(Lefts(pairs))[d] && RightCount(pairs, d) == multiset(Rights(pairs))[d]
  {
    if pairs != [] {
      var before, last := pairs[..|pairs| - 1], pairs[|pairs| - 1];
      CountsExact(before, d);
      assert Lefts(pairs) == Lefts(before) + [last.0];
      assert Rights(pairs) == Rights(before) + [last.1];
    }
  }

  lemma {:induction false} MatchesExact(pairs: seq<Pair>)
    ensures Matches(pairs) == |Agreeing(pairs)|
  {
    if pairs != [] {
      var k: nat := |pairs| - 1;
      var before := pairs[..k];
      MatchesExact(before);
      assert forall i: nat :: i < k ==> before[i] == pairs[i];
      if pairs[k].0 == pairs[k].1 {
        assert Agreeing(pairs) == Agreeing(before) + {k};
      } else {
        assert Agreeing(pairs) == Agreeing(before);
      }
    }
  }

  /** Observed agreement is the fraction of the places where the decisions agree. */
  lemma ObservedExact(pairs: seq<Pair>)
    requires pairs != []
    ensures Observed(pairs) == |Agreeing(pairs)| as real / |pairs| as real
  {
    MatchesExact(pairs);
  }

  /** A decision's share is its fraction of the left decisions times its fraction of the right ones. */
  lemma ShareExact(pairs: seq<Pair>, d: Decision)
    requires pairs != []
    ensures Share(pairs, d) ==
      (multiset(Lefts(pairs))[d] as real / |pairs| as real) * (multiset(Rights(pairs))[d] as real / |pairs| as real)
  {
    CountsExact(pairs, d);
  }

  /** Kappa by its formula: the excess of observed over expected agreement, divided by what there is room for. */
  lemma KappaExact(pairs: seq<Pair>, o: real, x: real)
    requires pairs != [] && o == Observed(pairs)
    requires x == Share(pairs, Accept) + Share(pairs, Correct) + Share(pairs, Reject)
    ensures x <= 1.0
    ensures x == 1.0 ==> Kappa(pairs) == 1.0
    ensures x < 1.0 ==> Kappa(pairs) == (o - x) / (1.0 - x)
  {
    NoDivisionByZero(pairs);
    assert x == Expected(pairs);
  }

  // ----- pairing the reviews

  /** The questions reviewed, in order of first review. */
  function Questions(reviews: seq<Review>): (names: seq<string>)
    ensures forall q :: q in names <==> exists r :: r in reviews && r.question == q
  {
    if reviews == [] then []
    else
      var before, last := Questions(reviews[..|reviews| - 1]), reviews[|reviews| - 1];
      assert reviews == reviews[..|reviews| - 1] + [last];
      if last.question in before then before else before + [last.question]
  }

  function Rows(reviews: seq<Review>, question: string): seq<Review> {
    if reviews == [] then []
    else
      Rows(reviews[..|reviews| - 1], question)
      + if reviews[|reviews| - 1].question == question then [reviews[|reviews| - 1]] else []
  }

  predicate IsPaired(rows: seq<Review>) {
    |rows| == 2 && rows[0].reviewer != rows[1].reviewer
  }

  /** The two decisions, the first reviewer's first. */
  function PairOf(rows: seq<Review>): Pair
    requires IsPaired(rows)
  {
    if rows[0].reviewer < rows[1].reviewer then (rows[0].decision, rows[1].decision)
    else (rows[1].decision, rows[0].decision)
  }

  /** Whichever review came first. */
  lemma PairIgnoresOrder(a: Review, b: Review)
    requires a.reviewer < b.reviewer
    ensures PairOf([a, b]) == (a.decision, b.decision) == PairOf([b, a])
  {
  }

  /** The pairs of the first `n` questions. */
  function PairsOf(reviews: seq<Review>, names: seq<string>): (pairs: seq<Pair>)
    requires forall q :: q in names ==> IsPaired(Rows(reviews, q))
    ensures |pairs| == |names|
  {
    if names == [] then [] else PairsOf(reviews, names[..|names| - 1]) + [PairOf(Rows(reviews, names[|names| - 1]))]
  }

  const MINIMUM: nat := 50

  ghost predicate Grouped(reviews: seq<Review>, names: seq<string>, groups: map<string, seq<Review>>) {
    names == Questions(reviews) && groups.Keys == (set q | q in names) && forall q :: q in groups ==>
      groups[q] == Rows(reviews, q)
  }

  lemma {:induction false} RowsAbsent(reviews: seq<Review>, question: string)
    requires question !in Questions(reviews)
    ensures Rows(reviews, question) == []
  {
    if reviews != [] {
      RowsAbsent(reviews[..|reviews| - 1], question);
    }
  }

  lemma GroupedNext(reviews: seq<Review>, names: seq<string>, groups: map<string, seq<Review>>, r: Review)
    requires Grouped(reviews, names, groups)
    ensures Grouped(reviews + [r], if r.question in groups then names else names + [r.question],
      groups[r.question := (if r.question in groups then groups[r.question] else []) + [r]])
  {
    assert (reviews + [r])[..|reviews|] == reviews;
    if r.question !in groups {
      RowsAbsent(reviews, r.question);
    }
  }

  method Group(reviews: seq<Review>) returns (names: seq<string>, groups: map<string, seq<Review>>)
    ensures Grouped(reviews, names, groups)
  {
    names, groups := [], map[];
    for i := 0 to |reviews|
      invariant Grouped(reviews[..i], names, groups)
    {
      var r := reviews[i];
      GroupedNext(reviews[..i], names, groups, r);
      assert reviews[..i + 1] == reviews[..i] + [r];
      names, groups := (if r.question in groups then names else names + [r.question]),
        groups[r.question := (if r.question in groups then groups[r.question] else []) + [r]];
    }
    assert reviews[..|reviews|] == reviews;
  }

  predicate AllPaired(reviews: seq<Review>) {
    forall q :: q in Questions(reviews) ==> IsPaired(Rows(reviews, q))
  }

  /** The pairs of the first `n` questions, all of them properly paired. */
  ghost predicate PairedTo(reviews: seq<Review>, names: seq<string>, n: nat, pairs: seq<Pair>)
    requires n <= |names|
  {
    && (forall q :: q in names[..n] ==> IsPaired(Rows(reviews, q)))
    && pairs == PairsOf(reviews, names[..n])
  }

  lemma PairedNext(reviews: seq<Review>, names: seq<string>, n: nat, pairs: seq<Pair>)
    requires n < |names| && PairedTo(reviews, names, n, pairs) && IsPaired(Rows(reviews, names[n]))
    ensures PairedTo(reviews, names, n + 1, pairs + [PairOf(Rows(reviews, names[n]))])
  {
    assert names[..n + 1] == names[..n] + [names[n]] && names[..n + 1][..n] == names[..n];
  }

  /** Agreement over at least fifty questions, each reviewed by two reviewers. */
  method CalculateAgreement(reviews: seq<Review>) returns (r: Result<Agreement, AgreementError>)
    ensures r == Err(TooFewItems) <==> |Questions(reviews)| < MINIMUM
    ensures r == Err(NotPaired) <==> |Questions(reviews)| >= MINIMUM && !AllPaired(reviews)
    ensures r.Ok? ==> AllPaired(reviews) && var pairs := PairsOf(reviews, Questions(reviews));
      pairs != [] && r.value == Agreement(|pairs|, Observed(pairs), Kappa(pairs))
  {
    var names, groups := Group(reviews);
    if |names| < MINIMUM {
      return Err(TooFewItems);
    }
    var pairs: seq<Pair> := [];
    for i := 0 to |names|
      invariant PairedTo(reviews, names, i, pairs)
    {
      assert names[i] in groups;
      var rows := groups[names[i]];
      if |rows| != 2 || rows[0].reviewer == rows[1].reviewer {
        return Err(NotPaired);
      }
      PairedNext(reviews, names, i, pairs);
      pairs := pairs + [PairOf(rows)];
    }
    assert names[..|names|] == names;
    return Ok(Agreement(|pairs|, Observed(pairs), Kappa(pairs)));
  }
}
