/** Parsing a long document in page ranges and merging the answers (src/ragbench/providers/upstage/client.py). */
module ParseMerge {
  import opened Results

  type Positive = n: int | n > 0 witness 1

  // ----- page ranges

  datatype Range = Range(start: nat, count: nat)

  /** The ranges follow each other from `first` to `last`, none empty. */
  ghost predicate Tiles(ranges: seq<Range>, first: nat, last: nat) {
    if ranges == [] then first == last
    else
      var r := ranges[|ranges| - 1];
      r.count > 0 && r.start + r.count == last && Tiles(ranges[..|ranges| - 1], first, r.start)
  }

  lemma {:induction false} TilesConcat(a: seq<Range>, b: seq<Range>, x: nat, y: nat, z: nat)
    requires Tiles(a, x, y) && Tiles(b, y, z)
    ensures Tiles(a + b, x, z)
  {
    if b == [] {
      assert a + b == a;
    } else {
      TilesConcat(a, b[..|b| - 1], x, y, b[|b| - 1].start);
      assert (a + b)[..|a + b| - 1] == a + b[..|b| - 1];
    }
  }

  /** Every page is in exactly one range. */
  lemma {:induction false} PageInOneRange(ranges: seq<Range>, first: nat, last: nat, page: nat)
    requires Tiles(ranges, first, last) && first <= page < last
    ensures exists i :: 0 <= i < |ranges| && ranges[i].start <= page < ranges[i].start + ranges[i].count
    ensures forall i :: 0 <= i < |ranges| ==> first <= ranges[i].start && ranges[i].start + ranges[i].count <= last
    ensures forall i, j :: 0 <= i < j < |ranges| ==> ranges[i].start + ranges[i].count <= ranges[j].start
  {
    var k := |ranges| - 1;
    TilesOrder(ranges, first, last);
    if page < ranges[k].start {
      PageInOneRange(ranges[..k], first, ranges[k].start, page);
      var i :| 0 <= i < k && ranges[..k][i].start <= page < ranges[..k][i].start + ranges[..k][i].count;
      assert ranges[i] == ranges[..k][i];
    }
  }

  lemma {:induction false} TilesOrder(ranges: seq<Range>, first: nat, last: nat)
    requires Tiles(ranges, first, last)
    ensures first <= last
    ensures forall i :: 0 <= i < |ranges| ==> first <= ranges[i].start && ranges[i].start + ranges[i].count <= last
    ensures forall i, j :: 0 <= i < j < |ranges| ==> ranges[i].start + ranges[i].count <= ranges[j].start
  {
    if ranges != [] {
      var k := |ranges| - 1;
      TilesOrder(ranges[..k], first, ranges[k].start);
      assert forall i | 0 <= i < k :: ranges[i] == ranges[..k][i];
    }
  }

  predicate AtMost(ranges: seq<Range>, max: int) {
    forall i :: 0 <= i < |ranges| ==> ranges[i].count <= max
  }

  method PdfChunks(pages: nat, maxPages: Positive) returns (ranges: seq<Range>)
    ensures Tiles(ranges, 0, pages) && AtMost(ranges, maxPages)
  {
    ranges := [];
    var start: nat := 0;
    while start < pages
      invariant Tiles(ranges, 0, if start < pages then start else pages) && AtMost(ranges, maxPages)
    {
      var end := if start + maxPages <= pages then start + maxPages else pages;
      TilesNext(ranges, start, end);
      ranges := ranges + [Range(start, end - start)];
      start := start + maxPages;
    }
  }

  lemma TilesNext(ranges: seq<Range>, start: nat, end: nat)
    requires Tiles(ranges, 0, start) && start < end
    ensures Tiles(ranges + [Range(start, end - start)], 0, end)
  {
    assert (ranges + [Range(start, end - start)])[..|ranges|] == ranges;
  }

  function Moved(ranges: seq<Range>, shift: nat): (moved: seq<Range>)
    ensures |moved| == |ranges|
    ensures forall i :: 0 <= i < |ranges| ==> moved[i] == Range(shift + ranges[i].start, ranges[i].count)
  {
    seq(|ranges|, i requires 0 <= i < |ranges| => Range(shift + ranges[i].start, ranges[i].count))
  }

  lemma {:induction false} TilesMoved(ranges: seq<Range>, first: nat, last: nat, shift: nat)
    requires Tiles(ranges, first, last)
    ensures Tiles(Moved(ranges, shift), shift + first, shift + last)
  {
    if ranges != [] {
      TilesMoved(ranges[..|ranges| - 1], first, ranges[|ranges| - 1].start, shift);
      assert Moved(ranges, shift)[..|ranges| - 1] == Moved(ranges[..|ranges| - 1], shift);
    }
  }

  /** The page ranges of the requests for a long document: enhanced ranges that are not cached go page by page. */
  method RequestRanges(pages: nat, maxPages: Positive, enhanced: bool, cached: Range -> bool)
    returns (requests: seq<Range>)
    ensures Tiles(requests, 0, pages) && AtMost(requests, maxPages)
    ensures enhanced ==> SingleOrCached(requests, cached)
  {
    var ranges := PdfChunks(pages, maxPages);
    requests := [];
    ghost var done: nat := 0;
    for k := 0 to |ranges|
      invariant Tiles(requests, 0, done) && Tiles(ranges[..k], 0, done) && AtMost(requests, maxPages)
      invariant enhanced ==> SingleOrCached(requests, cached)
    {
      var range := ranges[k];
      RangeStarts(ranges, pages, k, done);
      if enhanced && range.count > 1 && !cached(range) {
        var singles := Singles(range);
        TilesConcat(requests, singles, 0, done, done + range.count);
        requests := requests + singles;
      } else {
        TilesNext(requests, done, done + range.count);
        requests := requests + [range];
      }
      done := done + range.count;
    }
    assert ranges[..|ranges|] == ranges;
    TilesEnd(ranges, 0, done, pages);
  }

  predicate SingleOrCached(requests: seq<Range>, cached: Range -> bool) {
    forall i :: 0 <= i < |requests| ==> requests[i].count == 1 || cached(requests[i])
  }

  /** The pages of a range one by one, in the document's numbering. */
  method Singles(range: Range) returns (singles: seq<Range>)
    ensures Tiles(singles, range.start, range.start + range.count)
    ensures forall i :: 0 <= i < |singles| ==> singles[i].count == 1
  {
    var within := PdfChunks(range.count, 1);
    TilesMoved(within, 0, range.count, range.start);
    SinglesAreSingle(within, range.count);
    singles := Moved(within, range.start);
  }

  lemma RangeStarts(ranges: seq<Range>, pages: nat, k: nat, done: nat)
    requires Tiles(ranges, 0, pages) && k < |ranges| && Tiles(ranges[..k], 0, done)
    ensures ranges[k].start == done && ranges[k].count > 0 && Tiles(ranges[..k + 1], 0, done + ranges[k].count)
  {
    PrefixTiles(ranges, 0, pages, k + 1);
    assert ranges[..k + 1][..k] == ranges[..k];
    TilesEnd(ranges[..k], 0, done, ranges[k].start);
  }

  lemma {:induction false} PrefixTiles(ranges: seq<Range>, first: nat, last: nat, k: nat)
    requires Tiles(ranges, first, last) && 0 < k <= |ranges|
    ensures Tiles(ranges[..k], first, ranges[k - 1].start + ranges[k - 1].count)
  {
    if k == |ranges| {
      assert ranges[..k] == ranges;
    } else {
      PrefixTiles(ranges[..|ranges| - 1], first, ranges[|ranges| - 1].start, k);
      assert ranges[..|ranges| - 1][..k] == ranges[..k];
    }
  }

  lemma TilesEnd(ranges: seq<Range>, first: nat, a: nat, b: nat)
    requires Tiles(ranges, first, a) && Tiles(ranges, first, b)
    ensures a == b
  {
  }

  lemma {:induction false} SinglesAreSingle(ranges: seq<Range>, pages: nat)
    requires Tiles(ranges, 0, pages) && AtMost(ranges, 1)
    ensures forall i :: 0 <= i < |ranges| ==> ranges[i].count == 1
  {
    if ranges != [] {
      SinglesAreSingle(ranges[..|ranges| - 1], ranges[|ranges| - 1].start);
      assert forall i | 0 <= i < |ranges| - 1 :: ranges[i] == ranges[..|ranges| - 1][i];
    }
  }

  // ----- merging elements

  datatype ElementId = Absent | Numeric(n: int) | Malformed

  /** An element's identifier, its page within the part, and the rest. */
  datatype Element = Element(id: ElementId, page: Option<int>, body: string)

  datatype Part = Part(range: Range, model: Option<string>, elements: seq<Element>)

  datatype MergeError = InconsistentModels | MalformedId

  function Shift(e: Element, start: nat, offset: int): Element {
    Element(if e.id.Numeric? then Numeric(e.id.n + offset) else e.id,
      if e.page.Some? then Some(e.page.value + start) else None, e.body)
  }

  function ShiftAll(es: seq<Element>, start: nat, offset: int): (shifted: seq<Element>)
    ensures |shifted| == |es| && forall i :: 0 <= i < |es| ==> shifted[i] == Shift(es[i], start, offset)
  {
    seq(|es|, i requires 0 <= i < |es| => Shift(es[i], start, offset))
  }

  lemma ShiftNext(es: seq<Element>, i: nat, start: nat, offset: int)
    requires i < |es|
    ensures ShiftAll(es[..i + 1], start, offset) == ShiftAll(es[..i], start, offset) + [Shift(es[i], start, offset)]
  {
  }

  /** One more than the largest numeric identifier; 0 when there is none. */
  function NextId(es: seq<Element>): int {
    if es == [] then 0
    else
      var before, last := es[..|es| - 1], es[|es| - 1];
      if !last.id.Numeric? then NextId(before)
      else if HasIds(before) && NextId(before) > last.id.n + 1 then NextId(before)
      else last.id.n + 1
  }

  predicate HasIds(es: seq<Element>) {
    exists e :: e in es && e.id.Numeric?
  }

  /** The elements of the first `n` parts: each part's identifiers start where the earlier ones ended. */
  function Merged(parts: seq<Part>, n: nat): seq<Element>
    requires n <= |parts|
  {
    if n == 0 then []
    else
      var before := Merged(parts, n - 1);
      before + ShiftAll(parts[n - 1].elements, parts[n - 1].range.start, NextId(before))
  }

  /** Part `k`'s elements as they appear in the merged document. */
  function Placed(parts: seq<Part>, k: nat): seq<Element>
    requires k < |parts|
  {
    ShiftAll(parts[k].elements, parts[k].range.start, NextId(Merged(parts, k)))
  }

  ghost predicate WellFormed(parts: seq<Part>) {
    forall k, e :: 0 <= k < |parts| && e in parts[k].elements ==> !e.id.Malformed?
  }

  ghost predicate OneModel(parts: seq<Part>) {
    exists m: string :: m != "" && parts != [] && forall k :: 0 <= k < |parts| ==> parts[k].model == Some(m)
  }

  lemma OneModelExact(parts: seq<Part>, model: Option<string>)
    requires parts != [] && model == parts[0].model
    ensures OneModel(parts) <==> model.Some? && model.value != "" && forall k :: 0 <= k < |parts| ==>
      parts[k].model == model
  {
    if model.Some? && model.value != "" && forall k :: 0 <= k < |parts| ==> parts[k].model == model {
      assert forall k :: 0 <= k < |parts| ==> parts[k].model == Some(model.value);
    }
  }

  lemma WellFormedNext(parts: seq<Part>, k: nat)
    requires k < |parts| && WellFormed(parts[..k]) && forall e :: e in parts[k].elements ==> !e.id.Malformed?
    ensures WellFormed(parts[..k + 1])
  {
    assert parts[..k + 1] == parts[..k] + [parts[k]];
  }

  /** The first `k` parts are merged, and well-formed. */
  ghost predicate MergedTo(parts: seq<Part>, k: nat, merged: seq<Element>, nextId: int)
    requires k <= |parts|
  {
    merged == Merged(parts, k) && nextId == NextId(merged) && WellFormed(parts[..k])
  }

  lemma MergedToNext(parts: seq<Part>, k: nat, before: seq<Element>, offset: int, merged: seq<Element>)
    requires k < |parts| && MergedTo(parts, k, before, offset)
    requires merged == before + ShiftAll(parts[k].elements, parts[k].range.start, offset)
    requires forall e :: e in parts[k].elements ==> !e.id.Malformed?
    ensures MergedTo(parts, k + 1, merged, NextId(merged))
  {
    WellFormedNext(parts, k);
  }

  method Merge(parts: seq<Part>) returns (r: Result<seq<Element>, MergeError>)
    ensures r == Err(InconsistentModels) <==> !OneModel(parts)
    ensures r == Err(MalformedId) <==> OneModel(parts) && !WellFormed(parts)
    ensures r.Ok? ==> r.value == Merged(parts, |parts|)
  {
    if parts == [] {
      return Err(InconsistentModels);
    }
    var model := parts[0].model;
    OneModelExact(parts, model);
    if model.None? || model.value == "" || exists k :: 0 <= k < |parts| && parts[k].model != model {
      return Err(InconsistentModels);
    }
    var merged: seq<Element>, nextId: int := [], 0;
    for k := 0 to |parts|
      invariant MergedTo(parts, k, merged, nextId)
    {
      var offset, start := nextId, parts[k].range.start;
      ghost var before := merged;
      var elements := parts[k].elements;
      for i := 0 to |elements|
        invariant merged == before + ShiftAll(elements[..i], start, offset)
        invariant forall e :: e in elements[..i] ==> !e.id.Malformed?
      {
        if elements[i].id.Malformed? {
          assert elements[i] in parts[k].elements;
          return Err(MalformedId);
        }
        merged := merged + [Shift(elements[i], start, offset)];
        ShiftNext(elements, i, start, offset);
      }
      assert elements[..|elements|] == elements;
      MergedToNext(parts, k, before, offset, merged);
      nextId := NextId(merged);
    }
    assert parts[..|parts|] == parts;
    return Ok(merged);
  }

  // ----- what the merged identifiers are

  lemma {:induction false} NextIdBounds(es: seq<Element>)
    ensures forall e :: e in es && e.id.Numeric? ==> e.id.n < NextId(es)
    ensures HasIds(es) ==> exists e :: e in es && e.id == Numeric(NextId(es) - 1)
    ensures !HasIds(es) ==> NextId(es) == 0
  {
    if es != [] {
      var before, last := es[..|es| - 1], es[|es| - 1];
      NextIdBounds(before);
      assert es == before + [last];
      if last.id.Numeric? {
        assert last in es && HasIds(es);
        if NextId(es) != last.id.n + 1 {
          var top :| top in before && top.id == Numeric(NextId(before) - 1);
          assert top in es;
        } else {
          assert last.id == Numeric(NextId(es) - 1);
        }
      } else if HasIds(es) {
        assert HasIds(before);
        var top :| top in before && top.id == Numeric(NextId(before) - 1);
        assert top in es;
      }
    }
  }

  /** Element by element: a numeric identifier moves by the next free one, a page by the part's start, and the
      rest stays as it is. */
  lemma PlacedExact(parts: seq<Part>, k: nat, i: nat)
    requires k < |parts| && i < |parts[k].elements|
    ensures |Placed(parts, k)| == |parts[k].elements|
    ensures var e, placed := parts[k].elements[i], Placed(parts, k)[i];
      && placed.body == e.body
      && (forall page :: e.page == Some(page) ==> placed.page == Some(page + parts[k].range.start))
      && (e.page == None ==> placed.page == None)
      && (forall n :: e.id == Numeric(n) ==> placed.id == Numeric(n + NextId(Merged(parts, k))))
      && (!e.id.Numeric? ==> placed.id == e.id)
  {
  }

  /** The document's elements are those of the parts, part after part. */
  lemma {:induction false} MergedInOrder(parts: seq<Part>, n: nat, k: nat, i: nat)
    requires k < n <= |parts| && i < |parts[k].elements|
    ensures var at := |Merged(parts, k)| + i; at < |Merged(parts, n)| && Merged(parts, n)[at] == Placed(parts, k)[i]
  {
    if k < n - 1 {
      MergedInOrder(parts, n - 1, k, i);
    }
  }

  /** Every identifier of an earlier part is below every identifier of a later one. */
  ghost predicate IdsIncrease(parts: seq<Part>) {
    forall j, k, d, e ::
      0 <= j < k < |parts| && d in Placed(parts, j) && e in Placed(parts, k) && d.id.Numeric? && e.id.Numeric? ==>
        d.id.n < e.id.n
  }

  /** After the first part with identifiers none is negative. */
  ghost predicate LaterNonnegative(parts: seq<Part>) {
    forall j, k, d, e ::
      0 <= j < k < |parts| && d in parts[j].elements && d.id.Numeric? && e in parts[k].elements && e.id.Numeric? ==>
        e.id.n >= 0
  }

  lemma {:induction false} MergedMembers(parts: seq<Part>, n: nat)
    requires n <= |parts|
    ensures forall e :: e in Merged(parts, n) <==> exists k :: 0 <= k < n && e in Placed(parts, k)
  {
    if n > 0 {
      MergedMembers(parts, n - 1);
      assert Merged(parts, n) == Merged(parts, n - 1) + Placed(parts, n - 1);
      forall e | e in Merged(parts, n) ensures exists k :: 0 <= k < n && e in Placed(parts, k) {
        if e in Placed(parts, n - 1) {
        } else {
          assert e in Merged(parts, n - 1);
        }
      }
    }
  }

  lemma PlacedMembers(parts: seq<Part>, k: nat)
    requires k < |parts|
    ensures forall e :: e in Placed(parts, k) ==>
      exists s :: s in parts[k].elements && e == Shift(s, parts[k].range.start, NextId(Merged(parts, k)))
    ensures forall s :: s in parts[k].elements ==>
      Shift(s, parts[k].range.start, NextId(Merged(parts, k))) in Placed(parts, k)
  {
    var es, placed := parts[k].elements, Placed(parts, k);
    forall e | e in placed
      ensures exists s :: s in es && e == Shift(s, parts[k].range.start, NextId(Merged(parts, k)))
    {
      var i :| 0 <= i < |placed| && placed[i] == e;
      assert es[i] in es;
    }
    forall s | s in es ensures Shift(s, parts[k].range.start, NextId(Merged(parts, k))) in placed {
      var i :| 0 <= i < |es| && es[i] == s;
      assert placed[i] in placed;
    }
  }

  /** Merged identifiers increase from part to part exactly when no later part has a negative one. */
  lemma IdsIncreaseIff(parts: seq<Part>)
    ensures IdsIncrease(parts) <==> LaterNonnegative(parts)
  {
    if LaterNonnegative(parts) {
      forall j, k, d, e | 0 <= j < k < |parts| && d in Placed(parts, j) && e in Placed(parts, k) && d.id.Numeric? &&
        e.id.Numeric?
        ensures d.id.n < e.id.n
      {
        LaterAbove(parts, j, k, d, e);
      }
    }
    if IdsIncrease(parts) {
      forall j, k, d, e | 0 <= j < k < |parts| && d in parts[j].elements && d.id.Numeric? && e in parts[k].elements &&
        e.id.Numeric?
        ensures e.id.n >= 0
      {
        NegativeCollides(parts, j, k, d, e);
      }
    }
  }

  lemma EarlierBelow(parts: seq<Part>, j: nat, k: nat, d: Element)
    requires j < k < |parts| && d in Placed(parts, j) && d.id.Numeric?
    ensures d.id.n < NextId(Merged(parts, k))
  {
    MergedMembers(parts, k);
    NextIdBounds(Merged(parts, k));
  }

  /** The source of a placed element. */
  lemma SourceOf(parts: seq<Part>, k: nat, e: Element) returns (s: Element)
    requires k < |parts| && e in Placed(parts, k)
    ensures s in parts[k].elements && e == Shift(s, parts[k].range.start, NextId(Merged(parts, k)))
  {
    PlacedMembers(parts, k);
    s :| s in parts[k].elements && e == Shift(s, parts[k].range.start, NextId(Merged(parts, k)));
  }

  lemma LaterAbove(parts: seq<Part>, j: nat, k: nat, d: Element, e: Element)
    requires LaterNonnegative(parts) && j < k < |parts| && d in Placed(parts, j) && e in Placed(parts, k)
    requires d.id.Numeric? && e.id.Numeric?
    ensures d.id.n < e.id.n
  {
    EarlierBelow(parts, j, k, d);
    var t := SourceOf(parts, j, d);
    var s := SourceOf(parts, k, e);
    assert s.id.n >= 0;
  }

  lemma PlacedAt(parts: seq<Part>, k: nat, e: Element)
    requires k < |parts| && e in parts[k].elements
    ensures Shift(e, parts[k].range.start, NextId(Merged(parts, k))) in Placed(parts, k)
  {
    PlacedMembers(parts, k);
  }

  /** The largest identifier before part `k` stands in one of the parts before it. */
  lemma TopBefore(parts: seq<Part>, j: nat, k: nat, d: Element) returns (i: nat, top: Element)
    requires j < k < |parts| && d in parts[j].elements && d.id.Numeric?
    ensures i < k && top in Placed(parts, i) && top.id == Numeric(NextId(Merged(parts, k)) - 1)
  {
    var before := Merged(parts, k);
    MergedMembers(parts, k);
    PlacedAt(parts, j, d);
    assert HasIds(before);
    NextIdBounds(before);
    top :| top in before && top.id == Numeric(NextId(before) - 1);
    i :| 0 <= i < k && top in Placed(parts, i);
  }

  /** With earlier identifiers present, the part's offset is the largest plus one, so a negative identifier does
      not get above it. */
  lemma NegativeCollides(parts: seq<Part>, j: nat, k: nat, d: Element, e: Element)
    requires IdsIncrease(parts) && j < k < |parts| && d in parts[j].elements && e in parts[k].elements
    requires d.id.Numeric? && e.id.Numeric?
    ensures e.id.n >= 0
  {
    var i, top := TopBefore(parts, j, k, d);
    PlacedAt(parts, k, e);
    assert top.id.n < Shift(e, parts[k].range.start, NextId(Merged(parts, k))).id.n;
  }

  /** Within one part no identifier repeats. */
  ghost predicate UniqueIds(es: seq<Element>) {
    forall a, b :: 0 <= a < b < |es| && es[a].id.Numeric? && es[b].id.Numeric? ==> es[a].id != es[b].id
  }

  ghost predicate PartsUnique(parts: seq<Part>) {
    forall k :: 0 <= k < |parts| ==> UniqueIds(parts[k].elements)
  }

  /** Then no identifier repeats anywhere. */
  lemma IdsUnique(parts: seq<Part>, j: nat, a: nat, k: nat, b: nat)
    requires PartsUnique(parts) && LaterNonnegative(parts)
    requires j < |parts| && a < |Placed(parts, j)| && k < |parts| && b < |Placed(parts, k)|
    requires Placed(parts, j)[a].id.Numeric? && Placed(parts, j)[a].id == Placed(parts, k)[b].id
    ensures j == k && a == b
  {
    IdsIncreaseIff(parts);
    var d, e := Placed(parts, j)[a], Placed(parts, k)[b];
    assert d in Placed(parts, j) && e in Placed(parts, k);
  }

  ghost predicate Nonnegative(es: seq<Element>) {
    forall e :: e in es && e.id.Numeric? ==> 0 <= e.id.n
  }

  lemma MergedLast(before: seq<Part>, part: Part)
    ensures var es := Merged(before, |before|);
      Merged(before + [part], |before| + 1) == es + ShiftAll(part.elements, part.range.start, NextId(es))
  {
    MergedPrefix(before, part, |before|);
    MergedNext(before + [part], |before|, part);
  }

  lemma {:induction false} MergedPrefix(before: seq<Part>, part: Part, n: nat)
    requires n <= |before|
    ensures Merged(before + [part], n) == Merged(before, n)
  {
    if n > 0 {
      MergedPrefix(before, part, n - 1);
      MergedNext(before, n - 1, before[n - 1]);
      MergedNext(before + [part], n - 1, before[n - 1]);
    }
  }

  lemma MergedNext(parts: seq<Part>, k: nat, part: Part)
    requires k < |parts| && parts[k] == part
    ensures Merged(parts, k + 1) ==
      Merged(parts, k) + ShiftAll(part.elements, part.range.start, NextId(Merged(parts, k)))
  {
  }

  lemma AboveStaysUnique(es: seq<Element>, part: Part)
    requires UniqueIds(es) && UniqueIds(part.elements) && Nonnegative(part.elements)
    ensures UniqueIds(es + ShiftAll(part.elements, part.range.start, NextId(es)))
  {
    NextIdBounds(es);
    var shifted := ShiftAll(part.elements, part.range.start, NextId(es));
    forall a, b | 0 <= a < |es| && 0 <= b < |shifted| && es[a].id.Numeric? && shifted[b].id.Numeric?
      ensures es[a].id != shifted[b].id
    {
      assert es[a] in es && part.elements[b] in part.elements;
    }
  }

  function Numbered(n: int): Element {
    Element(Numeric(n), None, "")
  }

  /** Identifiers whose largest is `m - 1`, with 0 among them. */
  function UpTo(m: nat): seq<Element>
    requires m > 0
  {
    if m == 1 then [Numbered(0)] else [Numbered(0), Numbered(m - 1)]
  }

  lemma NextAfterUpTo(m: nat)
    requires m > 0
    ensures NextId(UpTo(m)) == m && UniqueIds(UpTo(m))
  {
    var zero := [Numbered(0)];
    assert zero[..0] == [];
    assert NextId(zero) == 1;
    if m > 1 {
      assert UpTo(m)[..1] == zero;
    }
  }

  /** For every negative identifier of a part there are earlier parts after which it repeats one of theirs. */
  lemma NegativeIdRepeats(part: Part, k: nat) returns (before: seq<Part>)
    requires k < |part.elements| && part.elements[k].id.Numeric? && part.elements[k].id.n < 0
    ensures UniqueIds(Merged(before, |before|)) && !UniqueIds(Merged(before + [part], |before| + 1))
  {
    var m := -part.elements[k].id.n;
    before := [Part(Range(0, 1), part.model, UpTo(m))];
    NextAfterUpTo(m);
    MergedFirst(before[0]);
    MergedLast(before, part);
    ZeroRepeats(UpTo(m), part, k);
  }

  lemma ZeroRepeats(es: seq<Element>, part: Part, k: nat)
    requires es != [] && es[0].id == Numeric(0)
    requires k < |part.elements| && part.elements[k].id == Numeric(-NextId(es))
    ensures !UniqueIds(es + ShiftAll(part.elements, part.range.start, NextId(es)))
  {
    var merged := es + ShiftAll(part.elements, part.range.start, NextId(es));
    assert merged[|es| + k].id == Numeric(0) && merged[0].id == Numeric(0);
  }

  /** A first part at the start of the document, whose elements name no pages, stays as it is. */
  lemma MergedFirst(part: Part)
    requires part.range.start == 0 && forall e :: e in part.elements ==> e.page == None
    ensures Merged([part], 1) == part.elements
  {
    var parts := [part];
    assert Merged(parts, 0) == [] && NextId([]) == 0;
    assert Merged(parts, 1) == [] + ShiftAll(part.elements, 0, 0);
    assert forall k | 0 <= k < |part.elements| :: part.elements[k] in part.elements;
  }

  /** A part whose own identifiers are unique keeps every document before it free of repeated ones exactly when
      none of its identifiers is negative. */
  lemma StaysUniqueIff(part: Part)
    requires UniqueIds(part.elements)
    ensures (forall before: seq<Part> :: UniqueIds(Merged(before, |before|)) ==>
      UniqueIds(Merged(before + [part], |before| + 1)))
        <==> Nonnegative(part.elements)
  {
    if Nonnegative(part.elements) {
      forall before: seq<Part> | UniqueIds(Merged(before, |before|))
        ensures UniqueIds(Merged(before + [part], |before| + 1))
      {
        MergedLast(before, part);
        AboveStaysUnique(Merged(before, |before|), part);
      }
    } else {
      var e :| e in part.elements && e.id.Numeric? && e.id.n < 0;
      var k :| 0 <= k < |part.elements| && part.elements[k] == e;
      var before := NegativeIdRepeats(part, k);
    }
  }

  /** Pages numbered within their part come out in the part's own range of the document. */
  lemma PagesStayApart(parts: seq<Part>, pages: nat, j: nat, k: nat, d: Element, e: Element)
    requires Tiles(Ranges(parts), 0, pages) && j < k < |parts|
    requires forall i, s :: 0 <= i < |parts| && s in parts[i].elements && s.page.Some? ==>
      1 <= s.page.value <= parts[i].range.count
    requires d in Placed(parts, j) && e in Placed(parts, k) && d.page.Some? && e.page.Some?
    ensures 1 <= d.page.value < e.page.value <= pages
    ensures parts[k].range.start < e.page.value <= parts[k].range.start + parts[k].range.count
  {
    TilesOrder(Ranges(parts), 0, pages);
    var t := SourceOf(parts, j, d);
    var s := SourceOf(parts, k, e);
    assert Ranges(parts)[j] == parts[j].range && Ranges(parts)[k] == parts[k].range;
  }

  function Ranges(parts: seq<Part>): (ranges: seq<Range>)
    ensures |ranges| == |parts| && forall k :: 0 <= k < |parts| ==> ranges[k] == parts[k].range
  {
    seq(|parts|, k requires 0 <= k < |parts| => parts[k].range)
  }
}
