/** Choosing the retrieval shortlist (src/ragbench/experiments/selection.py): the best outcome of each family,
    then a greedy pass under a cap per parse mode and per retriever. Axis values enter as their places in the
    grid's tuples, and an outcome's quality as a number that is smaller for a better outcome. */
module Shortlist {
  import opened Counters
  import opened Results
  import opened Sorting

  const MODES: nat := 2
  const STRATEGIES: nat := 7
  const RETRIEVERS: nat := 3
  const TOP_KS: set<nat> := {3, 5, 10}

  datatype Family = Family(mode: nat, strategy: nat, retriever: nat)

  /** `parse` and `artifact` name the snapshots the configuration is bound to; `cohort` stands for the corpus,
      questions, code, metrics and seed it was compared under. */
  datatype Outcome = Outcome(
    hash: string, family: Family, topK: nat, quality: int, parse: string, artifact: (string, string), cohort: string)

  datatype ShortlistError =
    | BadSize | DuplicateOutcomes | IncompleteGrid | InconsistentBindings | MixedCohorts
    | TooFewFamilies | CapsUnsatisfied

  // ----- the grid

  predicate InGrid(f: Family) {
    f.mode < MODES && f.strategy < STRATEGIES && f.retriever < RETRIEVERS
  }

  /** 126 outcomes, covering exactly the grid. */
  ghost predicate CompleteGrid(outcomes: seq<Outcome>) {
    && |outcomes| == 126
    && (forall o :: o in outcomes ==> InGrid(o.family) && o.topK in TOP_KS)
    && (forall f, k :: InGrid(f) && k in TOP_KS ==> exists o :: o in outcomes && o.family == f && o.topK == k)
  }

  function Axes(outcomes: seq<Outcome>): set<(Family, nat)> {
    set o | o in outcomes :: (o.family, o.topK)
  }

  function GridAxes(): set<(Family, nat)> {
    set m, s, r, k | 0 <= m < MODES && 0 <= s < STRATEGIES && 0 <= r < RETRIEVERS && k in TOP_KS :: (Family(m, s, r), k)
  }

  lemma AxesExact(outcomes: seq<Outcome>)
    requires |outcomes| == 126
    ensures Axes(outcomes) == GridAxes() <==> CompleteGrid(outcomes)
  {
    assert forall f, k :: (f, k) in GridAxes() <==> InGrid(f) && k in TOP_KS;
    if Axes(outcomes) == GridAxes() {
      forall o | o in outcomes ensures InGrid(o.family) && o.topK in TOP_KS {
        assert (o.family, o.topK) in Axes(outcomes);
      }
      forall f, k | InGrid(f) && k in TOP_KS ensures exists o :: o in outcomes && o.family == f && o.topK == k {
        assert (f, k) in Axes(outcomes);
      }
    }
    if CompleteGrid(outcomes) {
      forall a ensures a in Axes(outcomes) <==> a in GridAxes() {
      }
    }
  }

  // ----- one outcome per family

  function QualityOf(o: Outcome): int { o.quality }

  function AtFive(outcomes: seq<Outcome>): (pool: seq<Outcome>)
    ensures forall o :: o in pool <==> o in outcomes && o.topK == 5
  {
    if outcomes == [] then []
    else
      AtFive(outcomes[..|outcomes| - 1])
      + if outcomes[|outcomes| - 1].topK == 5 then [outcomes[|outcomes| - 1]] else []
  }

  ghost predicate DistinctFamilies(os: seq<Outcome>) {
    forall i, j :: 0 <= i < j < |os| ==> os[i].family != os[j].family
  }

  predicate HasFamily(os: seq<Outcome>, f: Family) {
    exists o :: o in os && o.family == f
  }

  /** The first outcome of each family. */
  function FirstOfFamily(os: seq<Outcome>): (firsts: seq<Outcome>)
    ensures forall o :: o in firsts ==> o in os
    ensures forall f :: HasFamily(os, f) ==> HasFamily(firsts, f)
  {
    if os == [] then []
    else
      var before, last := FirstOfFamily(os[..|os| - 1]), os[|os| - 1];
      assert forall f | HasFamily(os, f) :: f == last.family || HasFamily(os[..|os| - 1], f);
      if HasFamily(before, last.family) then before
      else
        assert last in before + [last];
        before + [last]
  }

  lemma {:induction false} FirstsDistinct(os: seq<Outcome>)
    ensures DistinctFamilies(FirstOfFamily(os))
  {
    if os != [] {
      FirstsDistinct(os[..|os| - 1]);
      var before, last := FirstOfFamily(os[..|os| - 1]), os[|os| - 1];
      if !HasFamily(before, last.family) {
        assert forall i | 0 <= i < |before| :: before[i] in before;
      }
    }
  }

  /** Of an ascending list, the first of a family is its best. */
  lemma {:induction false} FirstIsBest(os: seq<Outcome>, o: Outcome, other: Outcome)
    requires Ascending(os, QualityOf) && o in FirstOfFamily(os) && other in os && other.family == o.family
    ensures o.quality <= other.quality
  {
    var shorter, last := os[..|os| - 1], os[|os| - 1];
    var before := FirstOfFamily(shorter);
    if o in before {
      if other in shorter {
        FirstIsBest(shorter, o, other);
      } else {
        var i :| 0 <= i < |shorter| && shorter[i] == o;
        assert QualityOf(os[i]) <= QualityOf(last);
      }
    } else {
      assert o == last && !HasFamily(before, last.family);
      assert other in shorter ==> HasFamily(shorter, last.family);
    }
  }

  /** The ranked outcomes: the best of each family, best first. */
  function Ranked(outcomes: seq<Outcome>, completeGrid: bool): seq<Outcome> {
    SortBy(FirstOfFamily(SortBy(if completeGrid then AtFive(outcomes) else outcomes, QualityOf)), QualityOf)
  }

  lemma FamiliesRearranged(os: seq<Outcome>, other: seq<Outcome>)
    requires DistinctFamilies(os) && multiset(other) == multiset(os)
    ensures DistinctFamilies(other)
  {
    assert Distinct(os);
    RearrangedDistinct(os, other);
    forall i, j | 0 <= i < j < |other| ensures other[i].family != other[j].family {
      SameMembers(os, other, other[i]);
      SameMembers(os, other, other[j]);
    }
  }

  lemma RankedExact(outcomes: seq<Outcome>, completeGrid: bool)
    ensures DistinctFamilies(Ranked(outcomes, completeGrid)) && Ascending(Ranked(outcomes, completeGrid), QualityOf)
    ensures forall o :: o in Ranked(outcomes, completeGrid) ==>
      o in outcomes && (completeGrid ==> o.topK == 5)
    ensures forall o, p ::
      o in Ranked(outcomes, completeGrid) && p in outcomes && p.family == o.family && (completeGrid ==> p.topK == 5) ==>
        o.quality <= p.quality
    ensures forall p :: p in outcomes && (completeGrid ==> p.topK == 5) ==>
      HasFamily(Ranked(outcomes, completeGrid), p.family)
  {
    var pool := if completeGrid then AtFive(outcomes) else outcomes;
    var sorted := SortBy(pool, QualityOf);
    SortBySorts(pool, QualityOf);
    var firsts := FirstOfFamily(sorted);
    FirstsDistinct(sorted);
    SortBySorts(firsts, QualityOf);
    var ranked := SortBy(firsts, QualityOf);
    FamiliesRearranged(firsts, ranked);
    forall o ensures (o in ranked <==> o in firsts) && (o in sorted <==> o in pool) {
      SameMembers(firsts, ranked, o);
      SameMembers(pool, sorted, o);
    }
    forall o, p | o in ranked && p in pool && p.family == o.family ensures o.quality <= p.quality {
      FirstIsBest(sorted, o, p);
    }
    forall p | p in pool ensures HasFamily(ranked, p.family) {
      assert p in sorted && HasFamily(sorted, p.family);
      var o :| o in firsts && o.family == p.family;
      assert o in ranked;
    }
  }

  // ----- the capped pass

  function ModeCount(os: seq<Outcome>, mode: nat): nat {
    if os == [] then 0 else ModeCount(os[..|os| - 1], mode) + if os[|os| - 1].family.mode == mode then 1 else 0
  }

  function RetrieverCount(os: seq<Outcome>, retriever: nat): nat {
    if os == [] then 0
    else
      RetrieverCount(os[..|os| - 1], retriever)
      + if os[|os| - 1].family.retriever == retriever then 1 else 0
  }

  predicate Fits(selected: seq<Outcome>, cap: nat, o: Outcome) {
    ModeCount(selected, o.family.mode) < cap && RetrieverCount(selected, o.family.retriever) < cap
  }

  /** What is selected of the first `n` ranked outcomes. */
  function Greedy(ranked: seq<Outcome>, cap: nat, size: nat, n: nat): (selected: seq<Outcome>)
    requires n <= |ranked|
    ensures |selected| <= size
  {
    if n == 0 then []
    else
      var selected := Greedy(ranked, cap, size, n - 1);
      if |selected| < size && Fits(selected, cap, ranked[n - 1]) then selected + [ranked[n - 1]] else selected
  }

  function HalfUp(size: nat): nat { (size + 1) / 2 }

  /** What is selected comes from the ranking, in its order, and keeps the caps. */
  lemma {:induction false} GreedyKeeps(ranked: seq<Outcome>, cap: nat, size: nat, n: nat)
    requires n <= |ranked| && DistinctFamilies(ranked)
    ensures var selected := Greedy(ranked, cap, size, n);
      && (forall o :: o in selected ==> o in ranked[..n])
      && DistinctFamilies(selected)
      && (forall m :: ModeCount(selected, m) <= cap)
      && (forall r :: RetrieverCount(selected, r) <= cap)
  {
    if n > 0 {
      GreedyKeeps(ranked, cap, size, n - 1);
      var before := Greedy(ranked, cap, size, n - 1);
      assert ranked[..n] == ranked[..n - 1] + [ranked[n - 1]];
      assert (before + [ranked[n - 1]])[..|before|] == before;
      forall i | 0 <= i < |before| ensures before[i].family != ranked[n - 1].family {
        assert before[i] in ranked[..n - 1];
      }
    }
  }

  lemma {:induction false} GreedyAscends(ranked: seq<Outcome>, cap: nat, size: nat, n: nat)
    requires n <= |ranked| && Ascending(ranked, QualityOf)
    ensures Ascending(Greedy(ranked, cap, size, n), QualityOf)
    ensures forall o :: o in Greedy(ranked, cap, size, n) ==> exists i :: 0 <= i < n && ranked[i] == o
  {
    if n > 0 {
      GreedyAscends(ranked, cap, size, n - 1);
      var before := Greedy(ranked, cap, size, n - 1);
      forall i | 0 <= i < |before| ensures QualityOf(before[i]) <= QualityOf(ranked[n - 1]) {
        assert before[i] in before;
      }
    }
  }

  /** What was passed over while there was still space met a full parse mode or retriever. */
  lemma {:induction false} PassedOverMeetsCap(ranked: seq<Outcome>, cap: nat, size: nat, n: nat, i: nat)
    requires i < n <= |ranked| && |Greedy(ranked, cap, size, n)| < size && ranked[i] !in Greedy(ranked, cap, size, n)
    ensures ModeCount(Greedy(ranked, cap, size, n), ranked[i].family.mode) >= cap ||
            RetrieverCount(Greedy(ranked, cap, size, n), ranked[i].family.retriever) >= cap
  {
    var before := Greedy(ranked, cap, size, n - 1);
    CountsGrow(before, ranked[n - 1], ranked[i].family);
    if i < n - 1 {
      assert ranked[i] !in before;
      PassedOverMeetsCap(ranked, cap, size, n - 1, i);
    }
  }

  lemma CountsGrow(selected: seq<Outcome>, o: Outcome, f: Family)
    ensures ModeCount(selected, f.mode) <= ModeCount(selected + [o], f.mode)
    ensures RetrieverCount(selected, f.retriever) <= RetrieverCount(selected + [o], f.retriever)
  {
    assert (selected + [o])[..|selected|] == selected;
  }

  // ----- counting cells of the grid

  function CellCount(os: seq<Outcome>, mode: nat, retriever: nat): nat {
    if os == [] then 0
    else
      CellCount(os[..|os| - 1], mode, retriever)
      + if os[|os| - 1].family.mode == mode && os[|os| - 1].family.retriever == retriever then 1 else 0
  }

  lemma {:induction false} CountsAddUp(os: seq<Outcome>)
    requires forall o :: o in os ==> InGrid(o.family)
    ensures |os| == ModeCount(os, 0) + ModeCount(os, 1)
    ensures forall m :: 0 <= m < MODES ==>
      ModeCount(os, m) == CellCount(os, m, 0) + CellCount(os, m, 1) + CellCount(os, m, 2)
    ensures forall r :: 0 <= r < RETRIEVERS ==> RetrieverCount(os, r) == CellCount(os, 0, r) + CellCount(os, 1, r)
  {
    if os != [] {
      assert os[|os| - 1] in os;
      CountsAddUp(os[..|os| - 1]);
    }
  }

  /** The strategies in use in one cell. */
  ghost function StrategiesIn(os: seq<Outcome>, mode: nat, retriever: nat): set<nat> {
    set o | o in os && o.family.mode == mode && o.family.retriever == retriever :: o.family.strategy
  }

  lemma {:induction false} StrategyCount(os: seq<Outcome>, mode: nat, retriever: nat)
    requires DistinctFamilies(os)
    ensures |StrategiesIn(os, mode, retriever)| == CellCount(os, mode, retriever)
  {
    if os == [] {
      assert StrategiesIn(os, mode, retriever) == {};
    } else {
      var before, last := os[..|os| - 1], os[|os| - 1];
      StrategyCount(before, mode, retriever);
      StrategiesNext(before, last, mode, retriever);
      assert os == before + [last];
    }
  }

  lemma StrategiesNext(before: seq<Outcome>, last: Outcome, mode: nat, retriever: nat)
    requires DistinctFamilies(before + [last])
    ensures var strategies := StrategiesIn(before, mode, retriever);
      if last.family.mode == mode && last.family.retriever == retriever
      then last.family.strategy !in strategies &&
        StrategiesIn(before + [last], mode, retriever) == strategies + {last.family.strategy}
      else StrategiesIn(before + [last], mode, retriever) == strategies
  {
    var longer := before + [last];
    forall o | o in before ensures o.family != last.family {
      var i :| 0 <= i < |before| && before[i] == o;
      assert longer[i] == o && longer[|before|] == last;
    }
    assert forall o :: o in longer <==> o in before || o == last;
  }

  ghost function Upto(n: nat): (s: set<nat>)
    ensures |s| == n && forall k :: k in s <==> 0 <= k < n
  {
    if n == 0 then {} else Upto(n - 1) + {n - 1}
  }

  /** A cell holds at most the seven strategies, and all of them unless one is missing. */
  lemma CellFull(os: seq<Outcome>, mode: nat, retriever: nat)
    requires DistinctFamilies(os) && forall o :: o in os ==> InGrid(o.family)
    ensures CellCount(os, mode, retriever) <= STRATEGIES
    ensures CellCount(os, mode, retriever) < STRATEGIES ==>
      exists s :: 0 <= s < STRATEGIES && !HasFamily(os, Family(mode, s, retriever))
  {
    StrategyCount(os, mode, retriever);
    var used, all := StrategiesIn(os, mode, retriever), Upto(STRATEGIES);
    assert used <= all;
    assert |all - used| == |all| - |used|;
    if |used| < STRATEGIES {
      var s :| s in all - used;
      assert !HasFamily(os, Family(mode, s, retriever));
    }
  }

  /** Every family of the grid is ranked. */
  ghost predicate CoversGrid(ranked: seq<Outcome>) {
    && (forall o :: o in ranked ==> InGrid(o.family))
    && (forall f :: InGrid(f) ==> HasFamily(ranked, f))
  }

  /** A cell that is not full has its parse mode or its retriever at the cap, if the pass ran out. */
  lemma OpenCellMeetsCap(ranked: seq<Outcome>, cap: nat, size: nat, mode: nat, retriever: nat)
    requires DistinctFamilies(ranked) && CoversGrid(ranked) && mode < MODES && retriever < RETRIEVERS
    requires |Greedy(ranked, cap, size, |ranked|)| < size
    ensures var selected := Greedy(ranked, cap, size, |ranked|);
      CellCount(selected, mode, retriever) == STRATEGIES || ModeCount(selected, mode) >= cap ||
        RetrieverCount(selected, retriever) >= cap
  {
    var selected := Greedy(ranked, cap, size, |ranked|);
    GreedyKeeps(ranked, cap, size, |ranked|);
    assert ranked[..|ranked|] == ranked;
    CellFull(selected, mode, retriever);
    if CellCount(selected, mode, retriever) < STRATEGIES {
      var s :| 0 <= s < STRATEGIES && !HasFamily(selected, Family(mode, s, retriever));
      assert HasFamily(ranked, Family(mode, s, retriever));
      var o :| o in ranked && o.family == Family(mode, s, retriever);
      var i :| 0 <= i < |ranked| && ranked[i] == o;
      assert o !in selected;
      PassedOverMeetsCap(ranked, cap, size, |ranked|, i);
    }
  }

  /** On the complete grid the pass never runs out before the shortlist is full, whatever the ranking. */
  lemma GreedyNeverStuck(ranked: seq<Outcome>, size: nat)
    requires DistinctFamilies(ranked) && CoversGrid(ranked) && size <= MODES * STRATEGIES * RETRIEVERS
    ensures |Greedy(ranked, HalfUp(size), size, |ranked|)| == size
  {
    var cap := HalfUp(size);
    var selected := Greedy(ranked, cap, size, |ranked|);
    GreedyKeeps(ranked, cap, size, |ranked|);
    assert ranked[..|ranked|] == ranked;
    if |selected| < size {
      CountsAddUp(selected);
      forall m, r | 0 <= m < MODES && 0 <= r < RETRIEVERS
        ensures CellCount(selected, m, r) <= STRATEGIES
        ensures CellCount(selected, m, r) == STRATEGIES || ModeCount(selected, m) >= cap ||
          RetrieverCount(selected, r) >= cap
      {
        CellFull(selected, m, r);
        OpenCellMeetsCap(ranked, cap, size, m, r);
      }
      SixCells(size, cap, |selected|,
               CellCount(selected, 0, 0), CellCount(selected, 0, 1), CellCount(selected, 0, 2),
               CellCount(selected, 1, 0), CellCount(selected, 1, 1), CellCount(selected, 1, 2));
    }
  }

  /** The arithmetic: the counts of six cells cannot all be stuck below a size the grid can supply. */
  lemma SixCells(size: nat, cap: nat, total: nat, a0: nat, a1: nat, a2: nat, b0: nat, b1: nat, b2: nat)
    requires size <= 42 && cap == HalfUp(size) && total == a0 + a1 + a2 + b0 + b1 + b2
    requires a0 <= 7 && a1 <= 7 && a2 <= 7 && b0 <= 7 && b1 <= 7 && b2 <= 7
    requires a0 + a1 + a2 <= cap && b0 + b1 + b2 <= cap
    requires a0 + b0 <= cap && a1 + b1 <= cap && a2 + b2 <= cap
    requires a0 == 7 || a0 + a1 + a2 >= cap || a0 + b0 >= cap
    requires a1 == 7 || a0 + a1 + a2 >= cap || a1 + b1 >= cap
    requires a2 == 7 || a0 + a1 + a2 >= cap || a2 + b2 >= cap
    requires b0 == 7 || b0 + b1 + b2 >= cap || a0 + b0 >= cap
    requires b1 == 7 || b0 + b1 + b2 >= cap || a1 + b1 >= cap
    requires b2 == 7 || b0 + b1 + b2 >= cap || a2 + b2 >= cap
    ensures total >= size
  {
  }

  /** The grid has no more families than cells times strategies. */
  lemma RankedSize(ranked: seq<Outcome>)
    requires DistinctFamilies(ranked) && forall o :: o in ranked ==> InGrid(o.family)
    ensures |ranked| <= MODES * STRATEGIES * RETRIEVERS
  {
    CountsAddUp(ranked);
    forall m, r | 0 <= m < MODES && 0 <= r < RETRIEVERS ensures CellCount(ranked, m, r) <= STRATEGIES {
      CellFull(ranked, m, r);
    }
  }

  // ----- the selection

  function Hashes(outcomes: seq<Outcome>): (hashes: seq<string>)
    ensures |hashes| == |outcomes| && forall i :: 0 <= i < |outcomes| ==> hashes[i] == outcomes[i].hash
  {
    seq(|outcomes|, i requires 0 <= i < |outcomes| => outcomes[i].hash)
  }

  ghost predicate Tallied(selected: seq<Outcome>, modes: map<nat, nat>, retrievers: map<nat, nat>) {
    && (forall m :: Get(modes, m) == ModeCount(selected, m))
    && (forall r :: Get(retrievers, r) == RetrieverCount(selected, r))
  }

  lemma TalliedNext(selected: seq<Outcome>, modes: map<nat, nat>, retrievers: map<nat, nat>, o: Outcome)
    requires Tallied(selected, modes, retrievers)
    ensures Tallied(selected + [o], Bumped(modes, {o.family.mode}), Bumped(retrievers, {o.family.retriever}))
  {
    assert (selected + [o])[..|selected|] == selected;
  }

  lemma {:induction false} GreedyFull(ranked: seq<Outcome>, cap: nat, size: nat, k: nat, n: nat)
    requires k <= n <= |ranked| && |Greedy(ranked, cap, size, k)| == size
    ensures Greedy(ranked, cap, size, n) == Greedy(ranked, cap, size, k)
  {
    if k < n {
      GreedyFull(ranked, cap, size, k, n - 1);
    }
  }

  method CappedPass(ranked: seq<Outcome>, size: nat) returns (r: Option<seq<Outcome>>)
    requires size > 0
    ensures r.Some? <==> |Greedy(ranked, HalfUp(size), size, |ranked|)| == size
    ensures r.Some? ==> r.value == Greedy(ranked, HalfUp(size), size, |ranked|)
  {
    var cap := HalfUp(size);
    var modes: map<nat, nat>, retrievers: map<nat, nat> := map[], map[];
    var selected: seq<Outcome> := [];
    for i := 0 to |ranked|
      invariant selected == Greedy(ranked, cap, size, i) && |selected| < size
      invariant Tallied(selected, modes, retrievers)
    {
      var outcome := ranked[i];
      if Get(modes, outcome.family.mode) >= cap {
        continue;
      }
      if Get(retrievers, outcome.family.retriever) >= cap {
        continue;
      }
      TalliedNext(selected, modes, retrievers, outcome);
      selected := selected + [outcome];
      modes, retrievers := Bumped(modes, {outcome.family.mode}), Bumped(retrievers, {outcome.family.retriever});
      if |selected| == size {
        GreedyFull(ranked, cap, size, i + 1, |ranked|);
        return Some(selected);
      }
    }
    return None;
  }

  /** As many outcomes as asked for, of different families, each the best of its family, best first. */
  ghost predicate IsShortlist(outcomes: seq<Outcome>, size: nat, completeGrid: bool, chosen: seq<Outcome>) {
    && |chosen| == size && DistinctFamilies(chosen) && Ascending(chosen, QualityOf)
    && (forall o :: o in chosen ==> o in outcomes && (completeGrid ==> o.topK == 5))
    && (forall o, p :: o in chosen && p in outcomes && p.family == o.family && (completeGrid ==> p.topK == 5) ==>
      o.quality <= p.quality)
  }

  ghost predicate WithinCaps(chosen: seq<Outcome>, cap: nat) {
    (forall m :: ModeCount(chosen, m) <= cap) && (forall r :: RetrieverCount(chosen, r) <= cap)
  }

  lemma GridRanked(outcomes: seq<Outcome>)
    requires CompleteGrid(outcomes)
    ensures CoversGrid(Ranked(outcomes, true)) && DistinctFamilies(Ranked(outcomes, true))
  {
    var ranked := Ranked(outcomes, true);
    RankedExact(outcomes, true);
    forall f | InGrid(f) ensures HasFamily(ranked, f) {
      assert 5 in TOP_KS;
      var o :| o in outcomes && o.family == f && o.topK == 5;
    }
  }

  /** On the complete grid every size up to the number of families can be supplied, and no other. */
  lemma GridDecides(outcomes: seq<Outcome>, size: nat)
    requires CompleteGrid(outcomes)
    ensures var ranked := Ranked(outcomes, true);
      (|ranked| < size <==> size > 42) && (|Greedy(ranked, HalfUp(size), size, |ranked|)| < size <==> size > 42)
  {
    var ranked := Ranked(outcomes, true);
    GridRanked(outcomes);
    RankedSize(ranked);
    GreedyAtMost(ranked, HalfUp(size), size, |ranked|);
    GreedyNeverStuck(ranked, 42);
    GreedyAtMost(ranked, HalfUp(42), 42, |ranked|);
    if size <= 42 {
      GreedyNeverStuck(ranked, size);
    }
  }

  lemma {:induction false} GreedyAtMost(ranked: seq<Outcome>, cap: nat, size: nat, n: nat)
    requires n <= |ranked|
    ensures |Greedy(ranked, cap, size, n)| <= n
  {
    if n > 0 {
      GreedyAtMost(ranked, cap, size, n - 1);
    }
  }

  lemma PrefixIsShortlist(outcomes: seq<Outcome>, size: nat, completeGrid: bool)
    requires size <= |Ranked(outcomes, completeGrid)|
    ensures IsShortlist(outcomes, size, completeGrid, Ranked(outcomes, completeGrid)[..size])
  {
    RankedExact(outcomes, completeGrid);
    var ranked := Ranked(outcomes, completeGrid);
    assert forall o :: o in ranked[..size] ==> o in ranked;
  }

  lemma GreedyIsShortlist(outcomes: seq<Outcome>, size: nat, completeGrid: bool)
    ensures var ranked := Ranked(outcomes, completeGrid);
      var chosen := Greedy(ranked, HalfUp(size), size, |ranked|);
      WithinCaps(chosen, HalfUp(size)) && (|chosen| == size ==> IsShortlist(outcomes, size, completeGrid, chosen))
  {
    var ranked := Ranked(outcomes, completeGrid);
    RankedExact(outcomes, completeGrid);
    GreedyKeeps(ranked, HalfUp(size), size, |ranked|);
    GreedyAscends(ranked, HalfUp(size), size, |ranked|);
    assert ranked[..|ranked|] == ranked;
  }

  // ----- bindings and cohorts

  function ParseBindings(outcomes: seq<Outcome>, mode: nat): set<string> {
    set o | o in outcomes && o.family.mode == mode :: o.parse
  }

  function ArtifactKeys(outcomes: seq<Outcome>): set<(nat, nat)> {
    set o | o in outcomes :: KeyOf(o)
  }

  function ArtifactBindings(outcomes: seq<Outcome>, key: (nat, nat)): set<(string, string)> {
    set o | o in outcomes && KeyOf(o) == key :: o.artifact
  }

  function Cohorts(outcomes: seq<Outcome>): set<string> {
    set o | o in outcomes :: o.cohort
  }

  ghost predicate ParseAgrees(outcomes: seq<Outcome>, m: nat) {
    forall o, p :: o in outcomes && p in outcomes && o.family.mode == m && p.family.mode == m ==> o.parse == p.parse
  }

  function KeyOf(o: Outcome): (nat, nat) {
    (o.family.mode, o.family.strategy)
  }

  ghost predicate ArtifactAgrees(outcomes: seq<Outcome>, k: (nat, nat)) {
    forall o, p :: o in outcomes && p in outcomes && KeyOf(o) == k && KeyOf(p) == k ==> o.artifact == p.artifact
  }

  /** Configurations of one parse mode share the parse snapshot, and those of one mode and strategy the artifacts. */
  ghost predicate BindingsAgree(outcomes: seq<Outcome>) {
    (forall m: nat :: ParseAgrees(outcomes, m)) && (forall k :: ArtifactAgrees(outcomes, k))
  }

  ghost predicate OneCohort(outcomes: seq<Outcome>) {
    outcomes != [] && forall o, p :: o in outcomes && p in outcomes ==> o.cohort == p.cohort
  }

  lemma SingleIff<T>(s: set<T>)
    ensures |s| == 1 <==> s != {} && forall x, y :: x in s && y in s ==> x == y
  {
    if s != {} {
      var x :| x in s;
      if forall y :: y in s ==> y == x {
        assert s == {x};
      }
      if |s| == 1 {
        assert |s - {x}| == 0;
      }
    }
  }

  /** The complete grid has all 14 pairs of a mode and a strategy. */
  lemma FourteenKeys(outcomes: seq<Outcome>)
    requires CompleteGrid(outcomes)
    ensures |ArtifactKeys(outcomes)| == 14
    ensures forall m, s :: (m, s) in ArtifactKeys(outcomes) <==> 0 <= m < MODES && 0 <= s < STRATEGIES
  {
    var pairs: seq<(nat, nat)> := seq(14, i => (i / 7, i % 7));
    assert Distinct(pairs);
    MemberCount(pairs);
    forall m, s ensures (m, s) in ArtifactKeys(outcomes) <==> 0 <= m < MODES && 0 <= s < STRATEGIES {
      KeyInGrid(outcomes, m, s);
    }
    forall m, s ensures (m, s) in AsSet(pairs) <==> 0 <= m < MODES && 0 <= s < STRATEGIES {
      if 0 <= m < MODES && 0 <= s < STRATEGIES {
        assert pairs[m * 7 + s] == (m, s);
      }
    }
    assert ArtifactKeys(outcomes) == AsSet(pairs);
  }

  lemma KeyInGrid(outcomes: seq<Outcome>, m: int, s: int)
    requires CompleteGrid(outcomes)
    ensures (m, s) in ArtifactKeys(outcomes) <==> 0 <= m < MODES && 0 <= s < STRATEGIES
  {
    if 0 <= m < MODES && 0 <= s < STRATEGIES {
      assert InGrid(Family(m, s, 0)) && 5 in TOP_KS;
      var o :| o in outcomes && o.family == Family(m, s, 0) && o.topK == 5;
      assert KeyOf(o) in ArtifactKeys(outcomes);
    }
  }

  predicate OneParsePerMode(outcomes: seq<Outcome>) {
    forall m :: 0 <= m < MODES ==> |ParseBindings(outcomes, m)| == 1
  }

  predicate OneArtifactPerKey(outcomes: seq<Outcome>) {
    forall k :: k in ArtifactKeys(outcomes) ==> |ArtifactBindings(outcomes, k)| == 1
  }

  /** What the three conditions on the collected bindings find; the one on their number never decides. */
  lemma BindingsExact(outcomes: seq<Outcome>)
    requires CompleteGrid(outcomes)
    ensures |ArtifactKeys(outcomes)| == 14
    ensures BindingsAgree(outcomes) <==> OneParsePerMode(outcomes) && OneArtifactPerKey(outcomes)
  {
    FourteenKeys(outcomes);
    ParsesExact(outcomes);
    ArtifactsExact(outcomes);
  }

  lemma ParsesExact(outcomes: seq<Outcome>)
    requires CompleteGrid(outcomes)
    ensures (forall m: nat :: ParseAgrees(outcomes, m)) <==> OneParsePerMode(outcomes)
  {
    forall m: nat ensures ParseAgrees(outcomes, m) <==> m < MODES ==> |ParseBindings(outcomes, m)| == 1 {
      if m < MODES {
        var o := SomeOfMode(outcomes, m);
        ParseSingle(outcomes, m, o);
      } else {
        NoneOfMode(outcomes, m);
      }
    }
  }

  lemma ArtifactsExact(outcomes: seq<Outcome>)
    ensures (forall k :: ArtifactAgrees(outcomes, k)) <==> OneArtifactPerKey(outcomes)
  {
    forall k
      ensures ArtifactAgrees(outcomes, k) <==> k in ArtifactKeys(outcomes) ==> |ArtifactBindings(outcomes, k)| == 1
    {
      if k in ArtifactKeys(outcomes) {
        var o :| o in outcomes && KeyOf(o) == k;
        ArtifactSingle(outcomes, k, o);
      }
    }
  }

  lemma SomeOfMode(outcomes: seq<Outcome>, m: nat) returns (o: Outcome)
    requires CompleteGrid(outcomes) && m < MODES
    ensures o in outcomes && o.family.mode == m
  {
    assert InGrid(Family(m, 0, 0)) && 5 in TOP_KS;
    o :| o in outcomes && o.family == Family(m, 0, 0) && o.topK == 5;
  }

  lemma NoneOfMode(outcomes: seq<Outcome>, m: nat)
    requires CompleteGrid(outcomes) && MODES <= m
    ensures ParseAgrees(outcomes, m)
  {
    assert forall o :: o in outcomes ==> InGrid(o.family);
  }

  lemma ParseSingle(outcomes: seq<Outcome>, m: nat, first: Outcome)
    requires first in outcomes && first.family.mode == m
    ensures |ParseBindings(outcomes, m)| == 1 <==> ParseAgrees(outcomes, m)
  {
    var found := ParseBindings(outcomes, m);
    SingleIff(found);
    assert first.parse in found;
    if |found| == 1 {
      forall o, p | o in outcomes && p in outcomes && o.family.mode == m && p.family.mode == m
        ensures o.parse == p.parse
      {
        assert o.parse in found && p.parse in found;
      }
    }
  }

  lemma ArtifactSingle(outcomes: seq<Outcome>, k: (nat, nat), first: Outcome)
    requires first in outcomes && KeyOf(first) == k
    ensures |ArtifactBindings(outcomes, k)| == 1 <==> ArtifactAgrees(outcomes, k)
  {
    var found := ArtifactBindings(outcomes, k);
    SingleIff(found);
    assert first.artifact in found;
    if |found| == 1 {
      forall o, p | o in outcomes && p in outcomes && KeyOf(o) == k && KeyOf(p) == k ensures o.artifact == p.artifact {
        assert o.artifact in found && p.artifact in found;
      }
    }
  }

  lemma CohortsExact(outcomes: seq<Outcome>)
    ensures |Cohorts(outcomes)| == 1 <==> OneCohort(outcomes)
  {
    SingleIff(Cohorts(outcomes));
    forall o | o in outcomes ensures o.cohort in Cohorts(outcomes) {
    }
    if outcomes != [] {
      assert outcomes[0] in outcomes;
    }
  }

  /** What the checks made before ranking accept. */
  ghost predicate Rankable(outcomes: seq<Outcome>, completeGrid: bool) {
    && Distinct(Hashes(outcomes))
    && (completeGrid ==> CompleteGrid(outcomes) && BindingsAgree(outcomes))
    && OneCohort(outcomes)
  }

  method Refusal(outcomes: seq<Outcome>, size: int, completeGrid: bool) returns (refused: Option<ShortlistError>)
    ensures refused == Some(BadSize) <==> size <= 0
    ensures refused == Some(DuplicateOutcomes) <==> size > 0 && !Distinct(Hashes(outcomes))
    ensures refused == Some(IncompleteGrid) <==>
      size > 0 && Distinct(Hashes(outcomes)) && completeGrid && !CompleteGrid(outcomes)
    ensures refused == Some(InconsistentBindings) <==>
      size > 0 && Distinct(Hashes(outcomes)) && completeGrid && CompleteGrid(outcomes) && !BindingsAgree(outcomes)
    ensures refused == Some(MixedCohorts) ==> !OneCohort(outcomes)
    ensures refused.None? <==> size > 0 && Rankable(outcomes, completeGrid)
    ensures refused.Some? ==> refused.value != TooFewFamilies && refused.value != CapsUnsatisfied
  {
    if size <= 0 {
      return Some(BadSize);
    }
    MemberCount(Hashes(outcomes));
    if |AsSet(Hashes(outcomes))| != |outcomes| {
      return Some(DuplicateOutcomes);
    }
    if completeGrid {
      if |outcomes| != 126 {
        return Some(IncompleteGrid);
      }
      AxesExact(outcomes);
      if Axes(outcomes) != GridAxes() {
        return Some(IncompleteGrid);
      }
      BindingsExact(outcomes);
      if !OneParsePerMode(outcomes) || |ArtifactKeys(outcomes)| != 14 || !OneArtifactPerKey(outcomes) {
        return Some(InconsistentBindings);
      }
    }
    CohortsExact(outcomes);
    return if |Cohorts(outcomes)| == 1 then None else Some(MixedCohorts);
  }

  /** The first of the ranking, or those the capped pass selects. */
  method Choose(outcomes: seq<Outcome>, size: nat, enforceDiversity: bool, completeGrid: bool)
    returns (r: Result<seq<Outcome>, ShortlistError>)
    requires size > 0
    ensures r.Ok? ==> IsShortlist(outcomes, size, completeGrid, r.value)
    ensures r.Ok? && enforceDiversity ==> WithinCaps(r.value, HalfUp(size))
    ensures r.Ok? && !enforceDiversity ==> r.value <= Ranked(outcomes, completeGrid)
    ensures var ranked := Ranked(outcomes, completeGrid);
      r.Err? <==> if enforceDiversity then |Greedy(ranked, HalfUp(size), size, |ranked|)| < size else |ranked| < size
    ensures r.Err? ==> r.error == if enforceDiversity then CapsUnsatisfied else TooFewFamilies
  {
    var ranked := Ranked(outcomes, completeGrid);
    if !enforceDiversity {
      if |ranked| < size {
        return Err(TooFewFamilies);
      }
      PrefixIsShortlist(outcomes, size, completeGrid);
      return Ok(ranked[..size]);
    }
    GreedyIsShortlist(outcomes, size, completeGrid);
    var selected := CappedPass(ranked, size);
    return if selected.None? then Err(CapsUnsatisfied) else Ok(selected.value);
  }

  method SelectShortlist(outcomes: seq<Outcome>, size: int, enforceDiversity: bool, completeGrid: bool)
    returns (r: Result<seq<Outcome>, ShortlistError>)
    ensures r == Err(BadSize) <==> size <= 0
    ensures r == Err(DuplicateOutcomes) <==> size > 0 && !Distinct(Hashes(outcomes))
    ensures r == Err(IncompleteGrid) <==>
      size > 0 && Distinct(Hashes(outcomes)) && completeGrid && !CompleteGrid(outcomes)
    ensures r == Err(InconsistentBindings) <==>
      size > 0 && Distinct(Hashes(outcomes)) && completeGrid && CompleteGrid(outcomes) && !BindingsAgree(outcomes)
    ensures r == Err(MixedCohorts) ==> !OneCohort(outcomes)
    ensures r.Ok? ==> Rankable(outcomes, completeGrid) && IsShortlist(outcomes, size, completeGrid, r.value)
    ensures r.Ok? && enforceDiversity ==> WithinCaps(r.value, HalfUp(size))
    ensures completeGrid && Rankable(outcomes, true) ==> (r.Ok? <==> 1 <= size <= 42)
  {
    var refused := Refusal(outcomes, size, completeGrid);
    if refused.Some? {
      return Err(refused.value);
    }
    if completeGrid {
      GridDecides(outcomes, size);
    }
    r := Choose(outcomes, size, enforceDiversity, completeGrid);
  }
}
