/** Planning which source window each question is generated from (src/ragbench/benchmark/generation.py):
    round-robin over the windows under a cap per document and per page. */
module GenerationPlanner {
  import opened Counters
  import opened Lists
  import opened Results

  /** The windows of a plan, with their document and page range, come sorted. */
  datatype Window = Window(id: string, document: string, pageStart: nat, pageEnd: nat, content: string)

  type Page = (string, nat)

  datatype Quota = Quota(kind: string, count: nat)

  type Positive = n: int | n > 0 witness 1

  datatype Config = Config(quotas: seq<Quota>, documentCap: Positive, pageCap: Positive, batchSize: Positive,
    maxChars: Positive)

  datatype Job = Job(ordinal: nat, kind: string, window: Window)

  datatype Plan = Plan(jobs: seq<Job>, batches: seq<seq<Job>>)

  datatype PlanError = NoWindows | UnboundedWindow | CapacityTooSmall | Exhausted | BadAttempt | NoDeficit

  // ----- what jobs occupy

  function PagesOf(w: Window): set<Page> {
    set p | w.pageStart <= p <= w.pageEnd :: (w.document, p)
  }

  function DocumentUses(ws: seq<Window>, d: string): nat {
    if ws == [] then 0
    else DocumentUses(ws[..|ws| - 1], d) + if ws[|ws| - 1].document == d then 1 else 0
  }

  function PageUses(ws: seq<Window>, p: Page): nat {
    if ws == [] then 0
    else PageUses(ws[..|ws| - 1], p) + if p in PagesOf(ws[|ws| - 1]) then 1 else 0
  }

  ghost predicate WithinCaps(config: Config, ws: seq<Window>) {
    && (forall d :: DocumentUses(ws, d) <= config.documentCap)
    && (forall p :: PageUses(ws, p) <= config.pageCap)
  }

  /** Another job on this window stays within the caps. */
  predicate HasRoom(config: Config, used: seq<Window>, w: Window) {
    DocumentUses(used, w.document) < config.documentCap && forall p :: p in PagesOf(w) ==>
      PageUses(used, p) < config.pageCap
  }

  lemma UsesNext(ws: seq<Window>, w: Window)
    ensures forall d :: DocumentUses(ws + [w], d) == DocumentUses(ws, d) + if w.document == d then 1 else 0
    ensures forall p :: PageUses(ws + [w], p) == PageUses(ws, p) + if p in PagesOf(w) then 1 else 0
  {
    assert (ws + [w])[..|ws|] == ws;
  }

  // ----- the round-robin search

  /** The first window with room, from `offset` places after the cursor on, going round once. */
  function Search(config: Config, windows: seq<Window>, used: seq<Window>, cursor: nat,
                  offset: nat): (found: Option<nat>)
    requires offset <= |windows|
    ensures found.Some? ==> found.value < |windows|
    decreases |windows| - offset
  {
    if offset == |windows| then None
    else
      var index := (cursor + offset) % |windows|;
      if HasRoom(config, used, windows[index]) then Some(index) else Search(config, windows, used, cursor, offset + 1)
  }

  lemma {:induction false} SearchHasRoom(config: Config, windows: seq<Window>, used: seq<Window>, cursor: nat,
                                         offset: nat)
    requires offset <= |windows| && Search(config, windows, used, cursor, offset).Some?
    ensures HasRoom(config, used, windows[Search(config, windows, used, cursor, offset).value])
    decreases |windows| - offset
  {
    if !HasRoom(config, used, windows[(cursor + offset) % |windows|]) {
      SearchHasRoom(config, windows, used, cursor, offset + 1);
    }
  }

  lemma {:induction false} SearchSkips(config: Config, windows: seq<Window>, used: seq<Window>, cursor: nat,
                                       offset: nat, k: nat)
    requires offset <= k < |windows| && Search(config, windows, used, cursor, offset).None?
    ensures !HasRoom(config, used, windows[(cursor + k) % |windows|])
    decreases |windows| - offset
  {
    if offset < k {
      SearchSkips(config, windows, used, cursor, offset + 1, k);
    }
  }

  lemma Reaches(cursor: nat, i: nat, n: nat) returns (k: nat)
    requires cursor < n && i < n
    ensures k < n && (cursor + k) % n == i
  {
    if i >= cursor {
      k := i - cursor;
    } else {
      k := i + n - cursor;
      assert cursor + k == n + i;
    }
  }

  /** Going round once from anywhere passes every window. */
  lemma SearchFindsRoom(config: Config, windows: seq<Window>, used: seq<Window>, cursor: nat, i: nat)
    requires cursor < |windows| && i < |windows| && Search(config, windows, used, cursor, 0).None?
    ensures !HasRoom(config, used, windows[i])
  {
    var k := Reaches(cursor, i, |windows|);
    SearchSkips(config, windows, used, cursor, 0, k);
  }

  datatype Progress = Progress(chosen: seq<Window>, cursor: nat)

  /** The windows of the first `n` jobs, on top of the windows used before; None when the search fails. */
  function Fill(config: Config, windows: seq<Window>, before: seq<Window>, n: nat): (filled: Option<Progress>)
    ensures filled.Some? ==> |filled.value.chosen| == n && (windows != [] ==> filled.value.cursor < |windows|)
  {
    if n == 0 then Some(Progress([], 0))
    else
      match Fill(config, windows, before, n - 1)
      case None => None
      case Some(p) =>
        match Search(config, windows, before + p.chosen, p.cursor, 0)
        case None => None
        case Some(i) => Some(Progress(p.chosen + [windows[i]], (i + 1) % |windows|))
  }

  ghost predicate Counted(used: seq<Window>, documents: map<string, nat>, pages: map<Page, nat>) {
    && (forall d :: Get(documents, d) == DocumentUses(used, d))
    && (forall p :: Get(pages, p) == PageUses(used, p))
  }

  lemma CountedNext(used: seq<Window>, documents: map<string, nat>, pages: map<Page, nat>, w: Window)
    requires Counted(used, documents, pages)
    ensures Counted(used + [w], Bumped(documents, {w.document}), Bumped(pages, PagesOf(w)))
  {
    UsesNext(used, w);
  }

  method Count(before: seq<Window>) returns (documents: map<string, nat>, pages: map<Page, nat>)
    ensures Counted(before, documents, pages)
  {
    documents, pages := map[], map[];
    for i := 0 to |before|
      invariant Counted(before[..i], documents, pages)
    {
      assert before[..i + 1] == before[..i] + [before[i]];
      documents, pages := Charge(before[..i], documents, pages, before[i]);
    }
    assert before[..|before|] == before;
  }

  method FindRoom(config: Config, windows: seq<Window>, ghost used: seq<Window>, cursor: nat,
                  documents: map<string, nat>, pages: map<Page, nat>) returns (found: Option<nat>)
    requires Counted(used, documents, pages)
    ensures found == Search(config, windows, used, cursor, 0)
  {
    for offset := 0 to |windows|
      invariant Search(config, windows, used, cursor, 0) == Search(config, windows, used, cursor, offset)
    {
      var index := (cursor + offset) % |windows|;
      var window := windows[index];
      if Get(documents, window.document) >= config.documentCap {
        continue;
      }
      if exists p :: p in PagesOf(window) && Get(pages, p) >= config.pageCap {
        continue;
      }
      return Some(index);
    }
    return None;
  }

  method Charge(ghost used: seq<Window>, documents: map<string, nat>, pages: map<Page, nat>, chosen: Window)
    returns (newDocuments: map<string, nat>, newPages: map<Page, nat>)
    requires Counted(used, documents, pages)
    ensures Counted(used + [chosen], newDocuments, newPages)
  {
    CountedNext(used, documents, pages, chosen);
    newDocuments, newPages := Bumped(documents, {chosen.document}), Bumped(pages, PagesOf(chosen));
  }

  /** One job per kind, in order. */
  method FillJobs(config: Config, windows: seq<Window>, before: seq<Window>, kinds: seq<string>, first: nat)
    returns (r: Option<seq<Job>>)
    ensures r.Some? <==> Fill(config, windows, before, |kinds|).Some?
    ensures r.Some? ==>
      && |r.value| == |kinds|
      && AreJobs(r.value, kinds, first, Fill(config, windows, before, |kinds|).value.chosen)
  {
    var documents, pages := Count(before);
    var jobs: seq<Job>, cursor: nat := [], 0;
    ghost var chosen: seq<Window> := [];
    ghost var used := before;
    for k := 0 to |kinds|
      invariant Filling(config, windows, before, k, used, Progress(chosen, cursor))
      invariant AreJobs(jobs, kinds, first, chosen) && Counted(used, documents, pages)
    {
      var found := FindRoom(config, windows, used, cursor, documents, pages);
      FillingNext(config, windows, before, k, used, Progress(chosen, cursor), found);
      if found.None? {
        FillStops(config, windows, before, k + 1, |kinds|);
        return None;
      }
      var window := windows[found.value];
      cursor := (found.value + 1) % |windows|;
      documents, pages := Charge(used, documents, pages, window);
      JobsNext(jobs, kinds, first, chosen, window);
      jobs := jobs + [Job(first + k, kinds[k], window)];
      used, chosen := used + [window], chosen + [window];
    }
    return Some(jobs);
  }

  /** The state after `k` jobs: what was chosen, where the search goes on, and all windows used so far. */
  ghost predicate Filling(config: Config, windows: seq<Window>, before: seq<Window>, k: nat, used: seq<Window>,
                          p: Progress) {
    |p.chosen| == k && Fill(config, windows, before, k) == Some(p) && used == before + p.chosen
  }

  lemma FillingNext(config: Config, windows: seq<Window>, before: seq<Window>, k: nat, used: seq<Window>, p: Progress,
                    found: Option<nat>)
    requires Filling(config, windows, before, k, used, p) && found == Search(config, windows, used, p.cursor, 0)
    ensures found.None? ==> Fill(config, windows, before, k + 1).None?
    ensures found.Some? ==>
      var window := windows[found.value];
      Filling(config, windows, before, k + 1, used + [window],
        Progress(p.chosen + [window], (found.value + 1) % |windows|))
  {
    FillNext(config, windows, before, k);
    if found.Some? {
      assert (before + p.chosen) + [windows[found.value]] == before + (p.chosen + [windows[found.value]]);
    }
  }

  /** Numbered from `first`, one job per kind and window. */
  predicate AreJobs(jobs: seq<Job>, kinds: seq<string>, first: nat, ws: seq<Window>) {
    |jobs| == |ws| <= |kinds| && forall k :: 0 <= k < |jobs| ==> jobs[k] == Job(first + k, kinds[k], ws[k])
  }

  lemma JobsNext(jobs: seq<Job>, kinds: seq<string>, first: nat, ws: seq<Window>, window: Window)
    requires AreJobs(jobs, kinds, first, ws) && |jobs| < |kinds|
    ensures AreJobs(jobs + [Job(first + |jobs|, kinds[|jobs|], window)], kinds, first, ws + [window])
  {
  }

  lemma FillNext(config: Config, windows: seq<Window>, before: seq<Window>, n: nat)
    requires Fill(config, windows, before, n).Some?
    ensures var p := Fill(config, windows, before, n).value;
      var found := Search(config, windows, before + p.chosen, p.cursor, 0);
      Fill(config, windows, before, n + 1) ==
        if found.None? then None else Some(Progress(p.chosen + [windows[found.value]], (found.value + 1) % |windows|))
  {
  }

  function Windows(jobs: seq<Job>): (ws: seq<Window>)
    ensures |ws| == |jobs| && forall k :: 0 <= k < |jobs| ==> ws[k] == jobs[k].window
  {
    seq(|jobs|, k requires 0 <= k < |jobs| => jobs[k].window)
  }

  lemma {:induction false} FillStops(config: Config, windows: seq<Window>, before: seq<Window>, k: nat, n: nat)
    requires k <= n && Fill(config, windows, before, k).None?
    ensures Fill(config, windows, before, n).None?
  {
    if k < n {
      FillStops(config, windows, before, k, n - 1);
    }
  }

  // ----- caps

  lemma {:induction false} UsesConcat(a: seq<Window>, b: seq<Window>)
    ensures forall d :: DocumentUses(a + b, d) == DocumentUses(a, d) + DocumentUses(b, d)
    ensures forall p :: PageUses(a + b, p) == PageUses(a, p) + PageUses(b, p)
  {
    if b == [] {
      assert a + b == a;
    } else {
      var last := |b| - 1;
      UsesConcat(a, b[..last]);
      UsesNext(a + b[..last], b[last]);
      UsesNext(b[..last], b[last]);
      assert a + b == a + b[..last] + [b[last]] && b == b[..last] + [b[last]];
    }
  }

  lemma RoomKeepsCaps(config: Config, used: seq<Window>, w: Window)
    requires WithinCaps(config, used) && HasRoom(config, used, w)
    ensures WithinCaps(config, used + [w])
  {
    UsesNext(used, w);
  }

  /** Windows from the list that together with those used before respect the caps. */
  ghost predicate Feasible(config: Config, windows: seq<Window>, before: seq<Window>, s: seq<Window>) {
    (forall w :: w in s ==> w in windows) && WithinCaps(config, before + s)
  }

  /** The search never exceeds a cap. */
  lemma {:induction false} FillFeasible(config: Config, windows: seq<Window>, before: seq<Window>, n: nat)
    requires WithinCaps(config, before) && Fill(config, windows, before, n).Some?
    ensures Feasible(config, windows, before, Fill(config, windows, before, n).value.chosen)
  {
    if n == 0 {
      assert before + [] == before;
    } else {
      FillFeasible(config, windows, before, n - 1);
      var p := Fill(config, windows, before, n - 1).value;
      var used := before + p.chosen;
      var i := Search(config, windows, used, p.cursor, 0).value;
      SearchHasRoom(config, windows, used, p.cursor, 0);
      RoomKeepsCaps(config, used, windows[i]);
      assert before + (p.chosen + [windows[i]]) == used + [windows[i]];
    }
  }

  // ----- with single-page windows the search is optimal

  ghost predicate SinglePage(ws: seq<Window>) {
    forall w :: w in ws ==> w.pageStart == w.pageEnd
  }

  ghost function DocumentBag(ws: seq<Window>): multiset<string> {
    if ws == [] then multiset{} else DocumentBag(ws[..|ws| - 1]) + multiset{ws[|ws| - 1].document}
  }

  ghost function PageBag(ws: seq<Window>, d: string): multiset<nat> {
    if ws == [] then multiset{}
    else
      PageBag(ws[..|ws| - 1], d)
      + if ws[|ws| - 1].document == d then multiset{ws[|ws| - 1].pageStart} else multiset{}
  }

  lemma {:induction false} DocumentBagCounts(ws: seq<Window>, d: string)
    ensures |DocumentBag(ws)| == |ws| && DocumentBag(ws)[d] == DocumentUses(ws, d)
  {
    if ws != [] {
      DocumentBagCounts(ws[..|ws| - 1], d);
    }
  }

  lemma {:induction false} PageBagCounts(ws: seq<Window>, d: string, p: nat)
    requires SinglePage(ws)
    ensures |PageBag(ws, d)| == DocumentUses(ws, d) && PageBag(ws, d)[p] == PageUses(ws, (d, p))
  {
    if ws != [] {
      assert ws[|ws| - 1] in ws;
      PageBagCounts(ws[..|ws| - 1], d, p);
    }
  }

  lemma {:induction false} PageBagFrom(windows: seq<Window>, ws: seq<Window>, d: string, p: nat)
    requires (forall w :: w in ws ==> w in windows) && p in PageBag(ws, d)
    ensures exists w :: w in windows && w.document == d && w.pageStart == p
  {
    var last := ws[|ws| - 1];
    assert last in ws;
    if !(last.document == d && last.pageStart == p) {
      PageBagFrom(windows, ws[..|ws| - 1], d, p);
    }
  }

  lemma Smaller<T>(a: multiset<T>, b: multiset<T>)
    requires forall x :: a[x] <= b[x]
    ensures |a| <= |b|
  {
    assert b == a + (b - a);
  }

  ghost predicate NoRoom(config: Config, windows: seq<Window>, used: seq<Window>) {
    forall w :: w in windows ==> !HasRoom(config, used, w)
  }

  /** When no window has room, nothing feasible uses a document more often. */
  lemma DocumentDominated(config: Config, windows: seq<Window>, before: seq<Window>, g: seq<Window>, s: seq<Window>,
                          d: string)
    requires SinglePage(windows) && Feasible(config, windows, before, g) && Feasible(config, windows, before, s)
    requires NoRoom(config, windows, before + g)
    ensures DocumentUses(s, d) <= DocumentUses(g, d)
  {
    UsesConcat(before, g);
    UsesConcat(before, s);
    if DocumentUses(before + g, d) < config.documentCap {
      forall p ensures PageBag(s, d)[p] <= PageBag(g, d)[p] {
        if p >= 0 {
          PageBagCounts(s, d, p);
          PageBagCounts(g, d, p);
          if p in PageBag(s, d) {
            PageBagFrom(windows, s, d, p);
            var w :| w in windows && w.document == d && w.pageStart == p;
            assert !HasRoom(config, before + g, w);
            assert PagesOf(w) == {(d, p)};
          }
        }
      }
      Smaller(PageBag(s, d), PageBag(g, d));
      PageBagCounts(s, d, 0);
      PageBagCounts(g, d, 0);
    }
  }

  lemma StuckIsOptimal(config: Config, windows: seq<Window>, before: seq<Window>, g: seq<Window>, s: seq<Window>)
    requires SinglePage(windows) && Feasible(config, windows, before, g) && Feasible(config, windows, before, s)
    requires NoRoom(config, windows, before + g)
    ensures |s| <= |g|
  {
    forall d ensures DocumentBag(s)[d] <= DocumentBag(g)[d] {
      DocumentDominated(config, windows, before, g, s, d);
      DocumentBagCounts(s, d);
      DocumentBagCounts(g, d);
    }
    Smaller(DocumentBag(s), DocumentBag(g));
    DocumentBagCounts(s, "");
    DocumentBagCounts(g, "");
  }

  /** Where the search got stuck. */
  lemma {:induction false} FillStuck(config: Config, windows: seq<Window>, before: seq<Window>, n: nat) returns (m: nat)
    requires Fill(config, windows, before, n).None?
    ensures m < n && Fill(config, windows, before, m).Some?
    ensures NoRoom(config, windows, before + Fill(config, windows, before, m).value.chosen)
  {
    if Fill(config, windows, before, n - 1).None? {
      m := FillStuck(config, windows, before, n - 1);
    } else {
      m := n - 1;
      var p := Fill(config, windows, before, m).value;
      forall w | w in windows ensures !HasRoom(config, before + p.chosen, w) {
        var i :| 0 <= i < |windows| && windows[i] == w;
        SearchFindsRoom(config, windows, before + p.chosen, p.cursor, i);
      }
    }
  }

  /** With single-page windows the search fails only when no choice of windows could succeed. */
  lemma FillComplete(config: Config, windows: seq<Window>, before: seq<Window>, s: seq<Window>)
    requires SinglePage(windows) && WithinCaps(config, before) && Feasible(config, windows, before, s)
    ensures Fill(config, windows, before, |s|).Some?
  {
    if Fill(config, windows, before, |s|).None? {
      var m := FillStuck(config, windows, before, |s|);
      FillFeasible(config, windows, before, m);
      StuckIsOptimal(config, windows, before, Fill(config, windows, before, m).value.chosen, s);
    }
  }

  /** With longer windows it can fail although a choice exists: it takes pages 1 to 3 first, and then
      nothing is left, while pages 2 and 3 alone would do. */
  lemma LongWindowsCanMiss(config: Config, a: Window, b: Window, c: Window)
    requires config.documentCap == 10 && config.pageCap == 1
    requires a == Window("a", "d", 1, 3, "x") && b == Window("b", "d", 2, 2, "x") && c == Window("c", "d", 3, 3, "x")
    ensures Fill(config, [a, b, c], [], 2).None? && Feasible(config, [a, b, c], [], [b, c])
  {
    LongFirst(config, a, b, c);
    ShortFeasible(config, a, b, c);
  }

  lemma ShortFeasible(config: Config, a: Window, b: Window, c: Window)
    requires config.documentCap == 10 && config.pageCap == 1
    requires b == Window("b", "d", 2, 2, "x") && c == Window("c", "d", 3, 3, "x")
    ensures Feasible(config, [a, b, c], [], [b, c])
  {
    UsesNext([], b);
    UsesNext([b], c);
    assert [] + [b] == [b] && [b] + [c] == [b, c] && [] + [b, c] == [b, c];
    assert PagesOf(b) == {("d", 2)} && PagesOf(c) == {("d", 3)};
  }

  lemma LongFirst(config: Config, a: Window, b: Window, c: Window)
    requires config.documentCap == 10 && config.pageCap == 1
    requires a == Window("a", "d", 1, 3, "x") && b == Window("b", "d", 2, 2, "x") && c == Window("c", "d", 3, 3, "x")
    ensures Fill(config, [a, b, c], [], 2).None?
  {
    FirstHasRoom(config, [a, b, c]);
    NoRoomAfter(config, a, b, c);
    NoneHasRoom(config, [a, b, c], [a], 1);
    FirstFilled(config, [a, b, c], a);
    FillingNext(config, [a, b, c], [], 1, [a], Progress([a], 1), None);
  }

  lemma FirstHasRoom(config: Config, windows: seq<Window>)
    requires windows != [] && config.documentCap > 0 && config.pageCap > 0
    ensures Search(config, windows, [], 0, 0) == Some(0)
  {
    assert HasRoom(config, [], windows[0]);
  }

  lemma NoneHasRoom(config: Config, windows: seq<Window>, used: seq<Window>, cursor: nat)
    requires forall i :: 0 <= i < |windows| ==> !HasRoom(config, used, windows[i])
    ensures Search(config, windows, used, cursor, 0).None?
  {
    if Search(config, windows, used, cursor, 0).Some? {
      SearchHasRoom(config, windows, used, cursor, 0);
    }
  }

  lemma FirstFilled(config: Config, windows: seq<Window>, w: Window)
    requires |windows| > 1 && windows[0] == w && Search(config, windows, [], 0, 0) == Some(0)
    ensures Filling(config, windows, [], 1, [w], Progress([w], 1))
  {
    var none: seq<Window> := [];
    assert none + none == none && none + [w] == [w];
    assert 1 % |windows| == 1;
    FillingNext(config, windows, none, 0, none, Progress(none, 0), Some(0));
  }

  lemma NoRoomAfter(config: Config, a: Window, b: Window, c: Window)
    requires config.pageCap == 1
    requires a == Window("a", "d", 1, 3, "x") && b == Window("b", "d", 2, 2, "x") && c == Window("c", "d", 3, 3, "x")
    ensures !HasRoom(config, [a], a) && !HasRoom(config, [a], b) && !HasRoom(config, [a], c)
  {
    UsesNext([], a);
    assert [] + [a] == [a] && ("d", 2) in PagesOf(a) && ("d", 3) in PagesOf(a);
    assert ("d", 2) in PagesOf(b) && ("d", 3) in PagesOf(c);
  }

  // ----- the capacity check made before searching

  /** A bag over `s` with at most `cap` of each holds at most `|s| * cap`. */
  lemma {:induction false} BagBound<T>(bag: multiset<T>, s: set<T>, cap: nat)
    requires forall x :: x in bag ==> x in s && bag[x] <= cap
    ensures |bag| <= |s| * cap
  {
    if s == {} {
      assert bag == multiset{};
    } else {
      var x :| x in s;
      var rest := bag[x := 0];
      BagBound(rest, s - {x}, cap);
      assert |bag| == |rest| + bag[x];
      assert |s| * cap == |s - {x}| * cap + cap;
    }
  }

  function DocumentsOf(windows: seq<Window>): set<string> {
    set w | w in windows :: w.document
  }

  function SourcePages(windows: seq<Window>): set<Page> {
    set w, p | w in windows && p in PagesOf(w) :: p
  }

  /** The first page of every window. */
  ghost function FirstPages(ws: seq<Window>): multiset<Page> {
    if ws == [] then multiset{}
    else FirstPages(ws[..|ws| - 1]) + multiset{(ws[|ws| - 1].document, ws[|ws| - 1].pageStart)}
  }

  lemma {:induction false} FirstPagesCounts(ws: seq<Window>, p: Page)
    requires forall w :: w in ws ==> w.pageStart <= w.pageEnd
    ensures |FirstPages(ws)| == |ws| && FirstPages(ws)[p] <= PageUses(ws, p)
  {
    if ws != [] {
      assert ws[|ws| - 1] in ws;
      FirstPagesCounts(ws[..|ws| - 1], p);
    }
  }

  lemma {:induction false} FirstPagesFrom(windows: seq<Window>, ws: seq<Window>, p: Page)
    requires (forall w :: w in ws ==> w in windows && w.pageStart <= w.pageEnd) && p in FirstPages(ws)
    ensures p in SourcePages(windows)
  {
    var last := ws[|ws| - 1];
    assert last in ws;
    if p == (last.document, last.pageStart) {
      assert p in PagesOf(last);
    } else {
      FirstPagesFrom(windows, ws[..|ws| - 1], p);
    }
  }

  lemma {:induction false} DocumentBagFrom(windows: seq<Window>, ws: seq<Window>, d: string)
    requires (forall w :: w in ws ==> w in windows) && d in DocumentBag(ws)
    ensures d in DocumentsOf(windows)
  {
    var last := ws[|ws| - 1];
    assert last in ws;
    if d != last.document {
      DocumentBagFrom(windows, ws[..|ws| - 1], d);
    }
  }

  /** Source windows have a page range. */
  ghost predicate Ranged(windows: seq<Window>) {
    forall w :: w in windows ==> w.pageStart <= w.pageEnd
  }

  /** The check only refuses what no choice of windows could satisfy. */
  lemma CapacityNecessary(config: Config, windows: seq<Window>, s: seq<Window>)
    requires Ranged(windows) && Feasible(config, windows, [], s)
    ensures |s| <= |DocumentsOf(windows)| * config.documentCap
    ensures |s| <= |SourcePages(windows)| * config.pageCap
  {
    assert [] + s == s;
    forall d | d in DocumentBag(s) ensures d in DocumentsOf(windows) && DocumentBag(s)[d] <= config.documentCap {
      DocumentBagFrom(windows, s, d);
      DocumentBagCounts(s, d);
    }
    BagBound(DocumentBag(s), DocumentsOf(windows), config.documentCap);
    DocumentBagCounts(s, "");
    forall p | p in FirstPages(s) ensures p in SourcePages(windows) && FirstPages(s)[p] <= config.pageCap {
      FirstPagesFrom(windows, s, p);
      FirstPagesCounts(s, p);
    }
    BagBound(FirstPages(s), SourcePages(windows), config.pageCap);
    FirstPagesCounts(s, ("", 0));
  }

  // ----- quotas

  function Target(quotas: seq<Quota>): nat {
    if quotas == [] then 0 else Target(quotas[..|quotas| - 1]) + quotas[|quotas| - 1].count
  }

  function Repeat(kind: string, n: nat): (kinds: seq<string>)
    ensures |kinds| == n
  {
    seq(n, i => kind)
  }

  /** Each kind as often as its quota, in order. */
  function Expanded(quotas: seq<Quota>): (kinds: seq<string>)
    ensures |kinds| == Target(quotas)
  {
    if quotas == [] then []
    else Expanded(quotas[..|quotas| - 1]) + Repeat(quotas[|quotas| - 1].kind, quotas[|quotas| - 1].count)
  }

  /** The kinds come quota by quota. */
  lemma {:induction false} ExpandedInOrder(quotas: seq<Quota>, i: nat, k: nat)
    requires i < |quotas| && k < quotas[i].count
    ensures Target(quotas[..i]) + k < |Expanded(quotas)| && Expanded(quotas)[Target(quotas[..i]) + k] == quotas[i].kind
  {
    var last := |quotas| - 1;
    if i < last {
      ExpandedInOrder(quotas[..last], i, k);
      assert quotas[..last][..i] == quotas[..i];
    }
  }

  ghost predicate DistinctKinds(quotas: seq<Quota>) {
    forall i, j :: 0 <= i < j < |quotas| ==> quotas[i].kind != quotas[j].kind
  }

  function QuotaOf(quotas: seq<Quota>, kind: string): nat {
    if quotas == [] then 0
    else if quotas[|quotas| - 1].kind == kind then quotas[|quotas| - 1].count
    else QuotaOf(quotas[..|quotas| - 1], kind)
  }

  lemma {:induction false} RepeatBag(kind: string, n: nat, other: string)
    ensures multiset(Repeat(kind, n))[other] == if kind == other then n else 0
  {
    if n > 0 {
      RepeatBag(kind, n - 1, other);
      assert Repeat(kind, n) == Repeat(kind, n - 1) + [kind];
    }
  }

  lemma {:induction false} QuotaAbsent(quotas: seq<Quota>, kind: string)
    requires forall i :: 0 <= i < |quotas| ==> quotas[i].kind != kind
    ensures QuotaOf(quotas, kind) == 0
  {
    if quotas != [] {
      QuotaAbsent(quotas[..|quotas| - 1], kind);
    }
  }

  /** A plan has exactly its quota of each kind. */
  lemma {:induction false} ExpandedExact(quotas: seq<Quota>, kind: string)
    requires DistinctKinds(quotas)
    ensures multiset(Expanded(quotas))[kind] == QuotaOf(quotas, kind)
  {
    if quotas != [] {
      var before, last := quotas[..|quotas| - 1], quotas[|quotas| - 1];
      ExpandedExact(before, kind);
      RepeatBag(last.kind, last.count, kind);
      assert multiset(Expanded(quotas)) == multiset(Expanded(before)) + multiset(Repeat(last.kind, last.count));
      if last.kind == kind {
        QuotaAbsent(before, kind);
      }
    }
  }

  /** What each kind still lacks, leaving out those that lack nothing. */
  function Deficits(targets: seq<Quota>, accepted: map<string, nat>): seq<Quota> {
    if targets == [] then []
    else
      var last := targets[|targets| - 1];
      var before := Deficits(targets[..|targets| - 1], accepted);
      if Get(accepted, last.kind) < last.count then before + [Quota(last.kind, last.count - Get(accepted, last.kind))]
      else before
  }

  lemma QuotaOfNext(quotas: seq<Quota>, q: Quota, kind: string)
    ensures QuotaOf(quotas + [q], kind) == if q.kind == kind then q.count else QuotaOf(quotas, kind)
  {
    assert (quotas + [q])[..|quotas|] == quotas;
  }

  lemma DeficitsNext(targets: seq<Quota>, accepted: map<string, nat>, q: Quota)
    ensures Deficits(targets + [q], accepted) == Deficits(targets, accepted) +
      if Get(accepted, q.kind) < q.count then [Quota(q.kind, q.count - Get(accepted, q.kind))] else []
  {
    assert (targets + [q])[..|targets|] == targets;
  }

  lemma {:induction false} DeficitsExact(targets: seq<Quota>, accepted: map<string, nat>, kind: string)
    requires DistinctKinds(targets)
    ensures QuotaOf(Deficits(targets, accepted), kind) ==
      if QuotaOf(targets, kind) > Get(accepted, kind) then QuotaOf(targets, kind) - Get(accepted, kind) else 0
  {
    if targets != [] {
      var before, last := targets[..|targets| - 1], targets[|targets| - 1];
      assert targets == before + [last];
      DeficitsExact(before, accepted, kind);
      DeficitsNext(before, accepted, last);
      QuotaOfNext(before, last, kind);
      if Get(accepted, last.kind) < last.count {
        QuotaOfNext(Deficits(before, accepted), Quota(last.kind, last.count - Get(accepted, last.kind)), kind);
      }
      if last.kind == kind {
        QuotaAbsent(before, kind);
      }
    }
  }

  // ----- batches

  /** The jobs in order, in full batches but for the last. */
  ghost predicate AreBatches(batches: seq<seq<Job>>, jobs: seq<Job>, size: Positive) {
    && Flat(batches) == jobs
    && (forall b :: 0 <= b < |batches| ==> 0 < |batches[b]| <= size)
    && (forall b :: 0 <= b < |batches| - 1 ==> |batches[b]| == size)
  }

  method MakeBatches(jobs: seq<Job>, size: Positive) returns (batches: seq<seq<Job>>)
    ensures AreBatches(batches, jobs, size)
  {
    batches := [];
    var start := 0;
    while start < |jobs|
      invariant 0 <= start
      invariant start <= |jobs| ==> AreBatches(batches, jobs[..start], size) && forall b :: 0 <= b < |batches| ==>
        |batches[b]| == size
      invariant start > |jobs| ==> AreBatches(batches, jobs, size)
    {
      var end := if start + size <= |jobs| then start + size else |jobs|;
      var batch := jobs[start..end];
      assert (batches + [batch])[..|batches|] == batches;
      assert jobs[..start] + batch == jobs[..end];
      assert jobs[..|jobs|] == jobs;
      batches := batches + [batch];
      start := start + size;
    }
    assert jobs[..|jobs|] == jobs;
  }

  // ----- planning

  predicate Bounded(config: Config, windows: seq<Window>) {
    forall w :: w in windows ==> |w.content| <= config.maxChars
  }

  /** Jobs of these kinds on windows chosen by the search, in batches. */
  ghost predicate IsPlan(config: Config, windows: seq<Window>, before: seq<Window>, kinds: seq<string>, first: nat,
                         plan: Plan) {
    && Fill(config, windows, before, |kinds|).Some? && |plan.jobs| == |kinds|
    && AreJobs(plan.jobs, kinds, first, Fill(config, windows, before, |kinds|).value.chosen)
    && AreBatches(plan.batches, plan.jobs, config.batchSize)
  }

  method MakePlan(config: Config, windows: seq<Window>, before: seq<Window>, kinds: seq<string>, first: nat)
    returns (r: Option<Plan>)
    ensures r.None? <==> Fill(config, windows, before, |kinds|).None?
    ensures r.Some? ==> IsPlan(config, windows, before, kinds, first, r.value)
  {
    var jobs := FillJobs(config, windows, before, kinds, first);
    if jobs.None? {
      return None;
    }
    var batches := MakeBatches(jobs.value, config.batchSize);
    return Some(Plan(jobs.value, batches));
  }

  function Kinds(jobs: seq<Job>): (kinds: seq<string>)
    ensures |kinds| == |jobs| && forall k :: 0 <= k < |jobs| ==> kinds[k] == jobs[k].kind
  {
    seq(|jobs|, k requires 0 <= k < |jobs| => jobs[k].kind)
  }

  /** A plan has exactly its quota of jobs of each kind. */
  lemma PlanExact(config: Config, windows: seq<Window>, before: seq<Window>, quotas: seq<Quota>, first: nat,
                  plan: Plan, kind: string)
    requires DistinctKinds(quotas) && IsPlan(config, windows, before, Expanded(quotas), first, plan)
    ensures multiset(Kinds(plan.jobs))[kind] == QuotaOf(quotas, kind)
  {
    assert Kinds(plan.jobs) == Expanded(quotas);
    ExpandedExact(quotas, kind);
  }

  predicate EnoughCapacity(config: Config, windows: seq<Window>) {
    && Target(config.quotas) <= |DocumentsOf(windows)| * config.documentCap
    && Target(config.quotas) <= |SourcePages(windows)| * config.pageCap
  }

  /** Some choice of windows fills the quotas within the caps. */
  ghost predicate Satisfiable(config: Config, windows: seq<Window>) {
    exists s: seq<Window> :: |s| == Target(config.quotas) && Feasible(config, windows, [], s)
  }

  method InitialPlan(config: Config, windows: seq<Window>) returns (r: Result<Plan, PlanError>)
    requires Ranged(windows)
    ensures r == Err(NoWindows) <==> windows == []
    ensures r == Err(UnboundedWindow) <==> windows != [] && !Bounded(config, windows)
    ensures r == Err(CapacityTooSmall) <==>
      windows != [] && Bounded(config, windows) && !EnoughCapacity(config, windows)
    ensures r == Err(Exhausted) <==>
      && windows != [] && Bounded(config, windows) && EnoughCapacity(config, windows)
      && Fill(config, windows, [], Target(config.quotas)).None?
    ensures r.Ok? ==> IsPlan(config, windows, [], Expanded(config.quotas), 0, r.value) && Satisfiable(config, windows)
    ensures SinglePage(windows) && windows != [] && Bounded(config, windows) ==>
      (r.Ok? <==> Satisfiable(config, windows))
  {
    if windows == [] {
      return Err(NoWindows);
    }
    if exists w :: w in windows && |w.content| > config.maxChars {
      return Err(UnboundedWindow);
    }
    SatisfiableMeans(config, windows);
    if !EnoughCapacity(config, windows) {
      return Err(CapacityTooSmall);
    }
    var plan := MakePlan(config, windows, [], Expanded(config.quotas), 0);
    if plan.None? {
      return Err(Exhausted);
    }
    return Ok(plan.value);
  }

  lemma SatisfiableMeans(config: Config, windows: seq<Window>)
    requires Ranged(windows)
    ensures Satisfiable(config, windows) ==> EnoughCapacity(config, windows)
    ensures Fill(config, windows, [], Target(config.quotas)).Some? ==> Satisfiable(config, windows)
    ensures SinglePage(windows) && Satisfiable(config, windows) ==>
      Fill(config, windows, [], Target(config.quotas)).Some?
  {
    if Satisfiable(config, windows) {
      var s: seq<Window> :| |s| == Target(config.quotas) && Feasible(config, windows, [], s);
      CapacityNecessary(config, windows, s);
      if SinglePage(windows) {
        FillComplete(config, windows, [], s);
      }
    }
    if Fill(config, windows, [], Target(config.quotas)).Some? {
      FillFeasible(config, windows, [], Target(config.quotas));
    }
  }

  /** The windows of the parent's jobs, each once, in order of first use. */
  function Unique(ws: seq<Window>): (unique: seq<Window>)
    ensures forall w :: w in unique <==> w in ws
  {
    if ws == [] then []
    else
      var before := Unique(ws[..|ws| - 1]);
      if ws[|ws| - 1] in before then before else before + [ws[|ws| - 1]]
  }

  const ORDINALS_PER_ATTEMPT: nat := 1_000_000

  function AllWindows(plans: seq<Plan>): seq<Window> {
    if plans == [] then [] else AllWindows(plans[..|plans| - 1]) + Windows(plans[|plans| - 1].jobs)
  }

  /** What a replacement plan must supply; the configured quotas are the targets when none are given. */
  function Wanted(config: Config, targets: seq<Quota>, accepted: map<string, nat>): seq<Quota> {
    Deficits(if targets == [] then config.quotas else targets, accepted)
  }

  /** What it counts against the caps; only the parent when no prior plans are given. */
  function Charged(parent: Plan, prior: seq<Plan>): seq<Window> {
    AllWindows(if prior == [] then [parent] else prior)
  }

  method ReplacementPlan(config: Config, parent: Plan, accepted: map<string, nat>, attempt: int, targets: seq<Quota>,
                         prior: seq<Plan>)
    returns (r: Result<Plan, PlanError>)
    ensures r == Err(BadAttempt) <==> attempt <= 0
    ensures r == Err(NoDeficit) <==> attempt > 0 && Wanted(config, targets, accepted) == []
    ensures r == Err(Exhausted) <==>
      && attempt > 0 && Wanted(config, targets, accepted) != []
      && Fill(config, Unique(Windows(parent.jobs)), Charged(parent, prior),
        Target(Wanted(config, targets, accepted))).None?
    ensures r.Err? ==> r.error in {BadAttempt, NoDeficit, Exhausted}
    ensures r.Ok? ==> attempt > 0 && IsPlan(config, Unique(Windows(parent.jobs)), Charged(parent, prior),
      Expanded(Wanted(config, targets, accepted)), attempt * ORDINALS_PER_ATTEMPT, r.value)
  {
    if attempt <= 0 {
      return Err(BadAttempt);
    }
    var wanted := Wanted(config, targets, accepted);
    if wanted == [] {
      return Err(NoDeficit);
    }
    var first: nat := attempt * ORDINALS_PER_ATTEMPT;
    var plan := MakePlan(config, Unique(Windows(parent.jobs)), Charged(parent, prior), Expanded(wanted), first);
    if plan.None? {
      return Err(Exhausted);
    }
    return Ok(plan.value);
  }

  // ----- campaigns

  /** What a replacement round was asked for. */
  datatype Round = Round(targets: seq<Quota>, accepted: map<string, nat>)

  /** An initial plan and its replacement rounds, each told about all plans before it. */
  ghost predicate IsCampaign(config: Config, windows: seq<Window>, rounds: seq<Round>, plans: seq<Plan>) {
    if |plans| != |rounds| + 1 then false
    else if rounds == [] then IsPlan(config, windows, [], Expanded(config.quotas), 0, plans[0])
    else
      var k := |rounds|;
      && IsCampaign(config, windows, rounds[..k - 1], plans[..k])
      && IsPlan(config, Unique(Windows(plans[0].jobs)), Charged(plans[0], plans[..k]),
                Expanded(Wanted(config, rounds[k - 1].targets, rounds[k - 1].accepted)), k * ORDINALS_PER_ATTEMPT,
                  plans[k])
  }

  lemma PlanWithinCaps(config: Config, windows: seq<Window>, before: seq<Window>, kinds: seq<string>, first: nat,
                       plan: Plan)
    requires WithinCaps(config, before) && IsPlan(config, windows, before, kinds, first, plan)
    ensures Feasible(config, windows, before, Windows(plan.jobs))
  {
    FillFeasible(config, windows, before, |kinds|);
    assert Windows(plan.jobs) == Fill(config, windows, before, |kinds|).value.chosen;
  }

  lemma RoundWithinCaps(config: Config, windows: seq<Window>, parent: Plan, used: seq<Window>, wanted: seq<Quota>,
                        first: nat, plan: Plan)
    requires Feasible(config, windows, [], used) && (forall w :: w in Windows(parent.jobs) ==> w in windows)
    requires IsPlan(config, Unique(Windows(parent.jobs)), used, Expanded(wanted), first, plan)
    ensures Feasible(config, windows, [], used + Windows(plan.jobs))
  {
    assert [] + used == used && [] + (used + Windows(plan.jobs)) == used + Windows(plan.jobs);
    PlanWithinCaps(config, Unique(Windows(parent.jobs)), used, Expanded(wanted), first, plan);
  }

  lemma FirstWithinCaps(config: Config, windows: seq<Window>, plan: Plan)
    requires IsPlan(config, windows, [], Expanded(config.quotas), 0, plan)
    ensures Feasible(config, windows, [], AllWindows([plan])) && forall w :: w in Windows(plan.jobs) ==> w in windows
  {
    PlanWithinCaps(config, windows, [], Expanded(config.quotas), 0, plan);
    assert [plan][..0] == [] && AllWindows([plan]) == Windows(plan.jobs);
  }

  /** Over the whole campaign no document or page is used beyond its cap, and only the windows given at the
      start are used. */
  lemma {:induction false} CampaignWithinCaps(config: Config, windows: seq<Window>, rounds: seq<Round>,
                                              plans: seq<Plan>)
    requires IsCampaign(config, windows, rounds, plans)
    ensures Feasible(config, windows, [], AllWindows(plans))
    ensures forall w :: w in Windows(plans[0].jobs) ==> w in windows
  {
    var k := |rounds|;
    if rounds == [] {
      FirstWithinCaps(config, windows, plans[0]);
      assert plans == [plans[0]];
    } else {
      CampaignWithinCaps(config, windows, rounds[..k - 1], plans[..k]);
      RoundWithinCaps(config, windows, plans[0], AllWindows(plans[..k]),
        Wanted(config, rounds[k - 1].targets, rounds[k - 1].accepted),
                      k * ORDINALS_PER_ATTEMPT, plans[k]);
    }
  }

  lemma {:induction false} CampaignOrdinal(config: Config, windows: seq<Window>, rounds: seq<Round>, plans: seq<Plan>,
                                           g: nat, k: nat)
    requires IsCampaign(config, windows, rounds, plans) && g < |plans| && k < |plans[g].jobs|
    ensures plans[g].jobs[k].ordinal == g * ORDINALS_PER_ATTEMPT + k
  {
    if g < |rounds| {
      CampaignOrdinal(config, windows, rounds[..|rounds| - 1], plans[..|rounds|], g, k);
    }
  }

  /** Ordinals never repeat across the plans of a campaign, as long as no plan has more jobs than the numbers
      set aside for it. */
  lemma OrdinalsIdentifyJobs(config: Config, windows: seq<Window>, rounds: seq<Round>, plans: seq<Plan>, g: nat,
                             k: nat, h: nat, l: nat)
    requires IsCampaign(config, windows, rounds, plans)
    requires forall i :: 0 <= i < |plans| ==> |plans[i].jobs| <= ORDINALS_PER_ATTEMPT
    requires g < |plans| && k < |plans[g].jobs| && h < |plans| && l < |plans[h].jobs|
    requires plans[g].jobs[k].ordinal == plans[h].jobs[l].ordinal
    ensures g == h && k == l
  {
    CampaignOrdinal(config, windows, rounds, plans, g, k);
    CampaignOrdinal(config, windows, rounds, plans, h, l);
  }
}
