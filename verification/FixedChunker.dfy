/** Fixed token-window chunking with source provenance (src/ragbench/chunking/fixed.py). */
module FixedChunker {
  import opened Results
  import opened Utf8
  import opened TokenWindows
  import Laws = TokenWindowLaws

  datatype Block = Block(
    id: string, document: string, snapshot: string, sourceSha: string, page: nat,
    section: seq<string>, content: seq<Scalar>, boilerplate: bool)

  /** A block and the characters of the joined text that it occupies. */
  datatype Span = Span(start: nat, end: nat, block: Block)

  /** The hash of these fields, taken to be injective. */
  datatype ChunkId = ChunkId(snapshot: string, document: string, ordinal: nat, tokenStart: nat, tokenEnd: nat,
    content: seq<Scalar>)

  datatype Chunk = Chunk(
    id: ChunkId, ordinal: nat, pageStart: nat, pageEnd: nat, section: seq<string>,
    content: seq<Scalar>, tokenStart: nat, tokenEnd: nat, sources: seq<string>)

  datatype ChunkError = MixedDocuments | NoWindows(error: WindowError) | NotCovering | GapOrOrdinal | RepeatedIds

  const SEPARATOR: seq<Scalar> := [10, 10]

  // ----- the joined text

  predicate Usable(b: Block) {
    !b.boilerplate && b.content != []
  }

  /** The usable ones of the first `n` blocks. */
  function UsableTo(blocks: seq<Block>, n: nat): seq<Block>
    requires n <= |blocks|
  {
    if n == 0 then [] else UsableTo(blocks, n - 1) + if Usable(blocks[n - 1]) then [blocks[n - 1]] else []
  }

  function UsableBlocks(blocks: seq<Block>): seq<Block> {
    UsableTo(blocks, |blocks|)
  }

  /** The contents of the blocks with a blank line between neighbours. */
  function JoinedText(blocks: seq<Block>): seq<Scalar> {
    if blocks == [] then []
    else
      var k := |blocks| - 1;
      JoinedText(blocks[..k]) + (if k == 0 then [] else SEPARATOR) + blocks[k].content
  }

  predicate Holds(text: seq<Scalar>, s: Span, b: Block) {
    s.block == b && s.start < s.end <= |text| && text[s.start..s.end] == b.content
  }

  /** The spans lie in the text in order, two characters apart, each holding its block's content. */
  ghost predicate SpansOf(text: seq<Scalar>, blocks: seq<Block>, spans: seq<Span>) {
    && |spans| == |blocks|
    && (forall i :: 0 <= i < |spans| ==> Holds(text, spans[i], blocks[i]))
    && (forall i, j :: 0 <= i < j < |spans| && j == i + 1 ==> spans[j].start == spans[i].end + 2)
    && (spans != [] ==> spans[0].start == 0 && spans[|spans| - 1].end == |text|)
    && (spans == [] ==> text == [])
  }

  lemma SpansNext(text: seq<Scalar>, kept: seq<Block>, spans: seq<Span>, block: Block, gap: seq<Scalar>)
    requires SpansOf(text, kept, spans) && block.content != []
    requires gap == if kept == [] then [] else SEPARATOR
    ensures var start := |text + gap|;
      SpansOf(text + gap + block.content, kept + [block], spans + [Span(start, start + |block.content|, block)])
  {
    var all := text + gap + block.content;
    assert all[|text + gap|..] == block.content;
    forall k | 0 <= k < |spans| ensures all[spans[k].start..spans[k].end] == kept[k].content {
      assert all[spans[k].start..spans[k].end] == text[spans[k].start..spans[k].end];
    }
  }

  ghost predicate LaidOut(text: seq<Scalar>, kept: seq<Block>, spans: seq<Span>) {
    text == JoinedText(kept) && SpansOf(text, kept, spans)
  }

  /** Text and spans after one more usable block. */
  lemma TextNext(text: seq<Scalar>, before: seq<Scalar>, kept: seq<Block>, spans: seq<Span>, block: Block)
    requires LaidOut(text, kept, spans) && block.content != []
    requires before == if spans == [] then text else text + SEPARATOR
    ensures LaidOut(before + block.content, kept + [block], spans + [Span(|before|, |before + block.content|, block)])
  {
    assert (kept + [block])[..|kept|] == kept;
    assert text + [] == text;
    SpansNext(text, kept, spans, block, if kept == [] then [] else SEPARATOR);
  }

  method SourceText(blocks: seq<Block>) returns (text: seq<Scalar>, spans: seq<Span>)
    ensures text == JoinedText(UsableBlocks(blocks))
    ensures SpansOf(text, UsableBlocks(blocks), spans)
  {
    text, spans := [], [];
    var position := 0;
    NothingLaidOut(blocks);
    for i := 0 to |blocks|
      invariant position == |text| && LaidOutFrom(blocks, i, text, spans)
    {
      var block := blocks[i];
      if block.boilerplate || block.content == [] {
        SkipsBlock(blocks, i, text, spans);
        continue;
      }
      var start := if spans == [] then position else position + 2;
      var before := if spans == [] then text else text + SEPARATOR;
      TakesBlock(blocks, i, text, before, spans);
      text := before + block.content;
      position := start + |block.content|;
      spans := spans + [Span(start, position, block)];
    }
  }

  /** The text and the spans of the first `i` blocks. */
  ghost predicate LaidOutFrom(blocks: seq<Block>, i: nat, text: seq<Scalar>, spans: seq<Span>)
    requires i <= |blocks|
  {
    LaidOut(text, UsableTo(blocks, i), spans)
  }

  lemma NothingLaidOut(blocks: seq<Block>)
    ensures LaidOutFrom(blocks, 0, [], [])
  {
  }

  lemma SkipsBlock(blocks: seq<Block>, i: nat, text: seq<Scalar>, spans: seq<Span>)
    requires i < |blocks| && !Usable(blocks[i]) && LaidOutFrom(blocks, i, text, spans)
    ensures LaidOutFrom(blocks, i + 1, text, spans)
  {
    assert UsableTo(blocks, i) + [] == UsableTo(blocks, i);
  }

  lemma TakesBlock(blocks: seq<Block>, i: nat, text: seq<Scalar>, before: seq<Scalar>, spans: seq<Span>)
    requires i < |blocks| && Usable(blocks[i]) && LaidOutFrom(blocks, i, text, spans)
    requires before == if spans == [] then text else text + SEPARATOR
    ensures LaidOutFrom(blocks, i + 1, before + blocks[i].content,
                        spans + [Span(|before|, |before| + |blocks[i].content|, blocks[i])])
  {
    TextNext(text, before, UsableTo(blocks, i), spans, blocks[i]);
  }

  /** The two characters between neighbouring spans are the separator. */
  lemma {:induction false} SeparatorBetween(blocks: seq<Block>, spans: seq<Span>, i: nat)
    requires SpansOf(JoinedText(blocks), blocks, spans) && i + 1 < |blocks|
    ensures spans[i].end <= spans[i + 1].start < |JoinedText(blocks)|
    ensures JoinedText(blocks)[spans[i].end..spans[i + 1].start] == SEPARATOR
  {
    var k := |blocks| - 1;
    var before, text := JoinedText(blocks[..k]), JoinedText(blocks);
    LastSpan(before, text, blocks, spans);
    if i + 1 < k {
      SpansShorter(before, SEPARATOR + blocks[k].content, text, blocks, spans);
      SeparatorBetween(blocks[..k], spans[..k], i);
      SlicePrefix(before, SEPARATOR + blocks[k].content, spans[i].end, spans[i + 1].start);
    }
  }

  lemma SlicePrefix(a: seq<Scalar>, b: seq<Scalar>, i: nat, j: nat)
    requires i <= j <= |a|
    ensures (a + b)[i..j] == a[i..j]
  {
  }

  lemma LastSpan(before: seq<Scalar>, text: seq<Scalar>, blocks: seq<Block>, spans: seq<Span>)
    requires SpansOf(text, blocks, spans) && |blocks| > 1
    requires text == before + SEPARATOR + blocks[|blocks| - 1].content
    ensures var k := |blocks| - 1;
      && spans[k - 1].end == |before| && spans[k].start == |before| + 2 < |text|
      && text == before + (SEPARATOR + blocks[k].content) && text[|before|..|before| + 2] == SEPARATOR
  {
    var k := |blocks| - 1;
    assert spans[k - 1 + 1].start == spans[k - 1].end + 2;
    assert |text[spans[k].start..spans[k].end]| == |blocks[k].content|;
  }

  lemma SpansShorter(before: seq<Scalar>, rest: seq<Scalar>, text: seq<Scalar>, blocks: seq<Block>, spans: seq<Span>)
    requires text == before + rest && SpansOf(text, blocks, spans) && |blocks| > 1
    requires |rest| == 2 + |blocks[|blocks| - 1].content|
    ensures SpansOf(before, blocks[..|blocks| - 1], spans[..|blocks| - 1])
  {
    var k := |blocks| - 1;
    assert |text[spans[k].start..spans[k].end]| == |blocks[k].content|;
    assert spans[k - 1 + 1].start == spans[k - 1].end + 2;
    SpansOrdered(text, blocks, spans);
    forall i | 0 <= i < k
      ensures spans[i].end <= |before| && before[spans[i].start..spans[i].end] == blocks[i].content
    {
      assert before[spans[i].start..spans[i].end] == text[spans[i].start..spans[i].end];
    }
  }

  lemma SpansOrdered(text: seq<Scalar>, blocks: seq<Block>, spans: seq<Span>)
    requires SpansOf(text, blocks, spans)
    ensures forall i, j :: 0 <= i < j < |spans| ==> spans[i].end < spans[j].start
  {
    forall i, j | 0 <= i < j < |spans| ensures spans[i].end < spans[j].start {
      var k := i + 1;
      assert spans[k].start == spans[i].end + 2;
      while k < j
        invariant i < k <= j && spans[i].end < spans[k].start
      {
        assert spans[k + 1].start == spans[k].end + 2;
        k := k + 1;
      }
    }
  }

  // ----- the blocks under a window

  predicate Meets(s: Span, start: nat, end: nat) {
    s.end > start && s.start < end
  }

  /** The blocks of the spans that the characters from `start` to `end` meet, in order. */
  function Overlapping(spans: seq<Span>, start: nat, end: nat): seq<Block> {
    if spans == [] then []
    else if Meets(spans[0], start, end) then [spans[0].block] + Overlapping(spans[1..], start, end)
    else Overlapping(spans[1..], start, end)
  }

  lemma {:induction false} OverlappingExact(spans: seq<Span>, start: nat, end: nat)
    ensures forall b :: b in Overlapping(spans, start, end)
              <==> exists i :: 0 <= i < |spans| && Meets(spans[i], start, end) && spans[i].block == b
  {
    if spans != [] {
      OverlappingExact(spans[1..], start, end);
      assert forall i | 1 <= i < |spans| :: spans[i] == spans[1..][i - 1];
      assert forall i | 0 <= i < |spans| - 1 :: spans[1..][i] == spans[i + 1];
    }
  }

  /** The places of the spans that the range meets, ascending. */
  ghost predicate MeetingPlaces(spans: seq<Span>, start: nat, end: nat, at: seq<nat>) {
    && (forall k :: 0 <= k < |at| ==> at[k] < |spans|)
    && (forall k, l :: 0 <= k < l < |at| ==> at[k] < at[l])
    && (forall i :: 0 <= i < |spans| ==> (i in at <==> Meets(spans[i], start, end)))
  }

  ghost predicate BlocksAt(spans: seq<Span>, at: seq<nat>, blocks: seq<Block>) {
    |blocks| == |at| && forall k :: 0 <= k < |at| ==> at[k] < |spans| && blocks[k] == spans[at[k]].block
  }

  /** The selected blocks stand in the order of their spans. */
  lemma {:induction false} OverlappingInOrder(spans: seq<Span>, start: nat, end: nat) returns (at: seq<nat>)
    ensures MeetingPlaces(spans, start, end, at) && BlocksAt(spans, at, Overlapping(spans, start, end))
  {
    if spans == [] {
      at := [];
    } else {
      var later := OverlappingInOrder(spans[1..], start, end);
      var moved, blocks := OneFurther(later), Overlapping(spans[1..], start, end);
      MovedMembers(later, moved);
      MovedBlocks(spans, later, moved, blocks);
      MovedPlaces(spans, start, end, later, moved);
      if Meets(spans[0], start, end) {
        at := [0] + moved;
        BlocksFromFirst(spans, moved, blocks);
      } else {
        at := moved;
      }
    }
  }

  function OneFurther(at: seq<nat>): (moved: seq<nat>)
    ensures |moved| == |at| && forall k :: 0 <= k < |at| ==> moved[k] == at[k] + 1
  {
    seq(|at|, k requires 0 <= k < |at| => at[k] + 1)
  }

  lemma MovedMembers(later: seq<nat>, moved: seq<nat>)
    requires moved == OneFurther(later)
    ensures forall i: nat :: i in moved <==> 0 < i && (i - 1) in later
  {
    forall i: nat | 0 < i && (i - 1) in later ensures i in moved {
      var k :| 0 <= k < |later| && later[k] == i - 1;
      assert moved[k] == i;
    }
  }

  lemma MovedPlaces(spans: seq<Span>, start: nat, end: nat, later: seq<nat>, moved: seq<nat>)
    requires spans != [] && moved == OneFurther(later) && MeetingPlaces(spans[1..], start, end, later)
    requires forall i: nat :: i in moved <==> 0 < i && (i - 1) in later
    ensures MeetingPlaces(spans, start, end, if Meets(spans[0], start, end) then [0] + moved else moved)
  {
    forall i: nat | 0 < i < |spans| ensures i in moved <==> Meets(spans[i], start, end) {
      var j: nat := i - 1;
      assert spans[1..][j] == spans[i] && (j in later <==> Meets(spans[1..][j], start, end));
    }
    if Meets(spans[0], start, end) {
      assert forall i: nat :: i in [0] + moved <==> i == 0 || i in moved;
    }
  }

  lemma MovedBlocks(spans: seq<Span>, later: seq<nat>, moved: seq<nat>, blocks: seq<Block>)
    requires spans != [] && moved == OneFurther(later) && BlocksAt(spans[1..], later, blocks)
    ensures BlocksAt(spans, moved, blocks)
  {
    forall k | 0 <= k < |moved| ensures moved[k] < |spans| && blocks[k] == spans[moved[k]].block {
      assert spans[1..][later[k]] == spans[moved[k]];
    }
  }

  lemma BlocksFromFirst(spans: seq<Span>, at: seq<nat>, blocks: seq<Block>)
    requires spans != [] && BlocksAt(spans, at, blocks)
    ensures BlocksAt(spans, [0] + at, [spans[0].block] + blocks)
  {
  }

  function Ids(blocks: seq<Block>): (ids: seq<string>)
    ensures |ids| == |blocks| && forall i :: 0 <= i < |blocks| ==> ids[i] == blocks[i].id
  {
    seq(|blocks|, i requires 0 <= i < |blocks| => blocks[i].id)
  }

  function MinPage(blocks: seq<Block>): nat
    requires blocks != []
  {
    if |blocks| == 1 then blocks[0].page
    else if blocks[0].page <= MinPage(blocks[1..]) then blocks[0].page
    else MinPage(blocks[1..])
  }

  function MaxPage(blocks: seq<Block>): nat
    requires blocks != []
  {
    if |blocks| == 1 then blocks[0].page
    else if blocks[0].page >= MaxPage(blocks[1..]) then blocks[0].page
    else MaxPage(blocks[1..])
  }

  lemma {:induction false} PageRange(blocks: seq<Block>)
    requires blocks != []
    ensures forall b :: b in blocks ==> MinPage(blocks) <= b.page <= MaxPage(blocks)
    ensures (exists b :: b in blocks && b.page == MinPage(blocks))
    ensures exists b :: b in blocks && b.page == MaxPage(blocks)
  {
    if |blocks| == 1 {
      assert blocks[0] in blocks;
    } else {
      PageRange(blocks[1..]);
      assert blocks == [blocks[0]] + blocks[1..];
      assert blocks[0] in blocks;
    }
  }

  /** The one section of all blocks, or no section when they disagree. */
  function CommonSection(blocks: seq<Block>): seq<string>
    requires blocks != []
  {
    if forall b :: b in blocks ==> b.section == blocks[0].section then blocks[0].section else []
  }

  /** The chunk a window becomes, unless it meets no block. */
  function RecordFor(blocks: seq<Block>, spans: seq<Span>, w: TokenWindow, ordinal: nat): Option<Chunk>
    requires blocks != []
  {
    var sources := Overlapping(spans, w.charStart, w.charEnd);
    if sources == [] then None
    else
      var id := ChunkId(blocks[0].snapshot, blocks[0].document, ordinal, w.tokenStart, w.tokenEnd, w.content);
      Some(Chunk(id, ordinal, MinPage(sources), MaxPage(sources), CommonSection(sources),
                 w.content, w.tokenStart, w.tokenEnd, Ids(sources)))
  }

  // ----- splitting

  predicate OneDocument(blocks: seq<Block>) {
    forall i :: 0 <= i < |blocks| ==>
      blocks[i].document == blocks[0].document && blocks[i].snapshot == blocks[0].snapshot &&
        blocks[i].sourceSha == blocks[0].sourceSha
  }

  function Slots(blocks: seq<Block>, spans: seq<Span>, ws: seq<TokenWindow>): (slots: seq<Option<Chunk>>)
    requires blocks != []
    ensures |slots| == |ws|
  {
    seq(|ws|, i requires 0 <= i < |ws| => RecordFor(blocks, spans, ws[i], i))
  }

  function Kept(slots: seq<Option<Chunk>>): seq<Chunk> {
    if slots == [] then []
    else
      var k := |slots| - 1;
      Kept(slots[..k]) + if slots[k].Some? then [slots[k].value] else []
  }

  method MakeRecords(blocks: seq<Block>, spans: seq<Span>, ws: seq<TokenWindow>) returns (records: seq<Chunk>)
    requires blocks != []
    ensures records == Kept(Slots(blocks, spans, ws))
  {
    ghost var slots := Slots(blocks, spans, ws);
    records := [];
    for ordinal := 0 to |ws|
      invariant records == Kept(slots[..ordinal])
    {
      assert slots[..ordinal + 1][..ordinal] == slots[..ordinal];
      var record := RecordFor(blocks, spans, ws[ordinal], ordinal);
      if record.None? {
        continue;
      }
      records := records + [record.value];
    }
    assert slots[..|ws|] == slots;
  }

  /** Each slot that is filled carries its own position. */
  ghost predicate Numbered(slots: seq<Option<Chunk>>) {
    forall i :: 0 <= i < |slots| && slots[i].Some? ==> slots[i].value.ordinal == i == slots[i].value.id.ordinal
  }

  ghost predicate HasOrdinal(records: seq<Chunk>, i: nat) {
    exists k :: 0 <= k < |records| && records[k].ordinal == i
  }

  lemma {:induction false} KeptFrom(slots: seq<Option<Chunk>>)
    requires Numbered(slots)
    ensures forall k :: 0 <= k < |Kept(slots)| ==>
      Kept(slots)[k].ordinal < |slots| && slots[Kept(slots)[k].ordinal] == Some(Kept(slots)[k])
    ensures forall k, l :: 0 <= k < l < |Kept(slots)| ==> Kept(slots)[k].ordinal < Kept(slots)[l].ordinal
  {
    if slots != [] {
      KeptFrom(slots[..|slots| - 1]);
    }
  }

  lemma {:induction false} KeptAll(slots: seq<Option<Chunk>>, i: nat)
    requires Numbered(slots) && i < |slots| && slots[i].Some?
    ensures HasOrdinal(Kept(slots), i)
  {
    var last := |slots| - 1;
    var before, all := Kept(slots[..last]), Kept(slots);
    if i < last {
      KeptAll(slots[..last], i);
      var k :| 0 <= k < |before| && before[k].ordinal == i;
      assert all[k].ordinal == i;
    } else {
      assert all[|before|].ordinal == i;
    }
  }

  lemma KeptInOrder(slots: seq<Option<Chunk>>)
    requires Numbered(slots)
    ensures forall k :: 0 <= k < |Kept(slots)| ==>
      Kept(slots)[k].ordinal < |slots| && slots[Kept(slots)[k].ordinal] == Some(Kept(slots)[k])
    ensures forall k, l :: 0 <= k < l < |Kept(slots)| ==> Kept(slots)[k].ordinal < Kept(slots)[l].ordinal
    ensures forall i :: 0 <= i < |slots| && slots[i].Some? ==> HasOrdinal(Kept(slots), i)
  {
    KeptFrom(slots);
    forall i | 0 <= i < |slots| && slots[i].Some? ensures HasOrdinal(Kept(slots), i) {
      KeptAll(slots, i);
    }
  }

  predicate Consecutive(records: seq<Chunk>) {
    forall k :: 0 <= k < |records| - 1 ==>
      records[k + 1].tokenStart <= records[k].tokenEnd && records[k + 1].ordinal == records[k].ordinal + 1
  }

  predicate DistinctIds(records: seq<Chunk>) {
    forall k, l :: 0 <= k < l < |records| ==> records[k].id != records[l].id
  }

  ghost predicate AllFilled(slots: seq<Option<Chunk>>) {
    forall i :: 0 <= i < |slots| ==> slots[i].Some?
  }

  /** The windows run over the tokens 0 to `n`, starts and ends strictly increasing, without a gap. */
  ghost predicate TokensInOrder(ws: seq<TokenWindow>, n: nat) {
    && ws != [] && ws[0].tokenStart == 0 && ws[|ws| - 1].tokenEnd == n
    && forall i, j :: 0 <= i < j < |ws| && j == i + 1 ==>
      ws[i].tokenStart < ws[j].tokenStart <= ws[i].tokenEnd < ws[j].tokenEnd
  }

  /** Each filled slot takes its token range from its window. */
  ghost predicate SlotsOver(ws: seq<TokenWindow>, slots: seq<Option<Chunk>>) {
    && |slots| == |ws|
    && Numbered(slots)
    && forall i :: 0 <= i < |ws| && slots[i].Some? ==>
      slots[i].value.tokenStart == ws[i].tokenStart && slots[i].value.tokenEnd == ws[i].tokenEnd
  }

  /** The checks made at the end pass exactly when no window was skipped. */
  lemma ChecksFindSkippedWindows(ws: seq<TokenWindow>, slots: seq<Option<Chunk>>, n: nat)
    requires SlotsOver(ws, slots) && TokensInOrder(ws, n) && Kept(slots) != []
    ensures AllFilled(slots) <==>
      && Kept(slots)[0].tokenStart == 0 && Kept(slots)[|Kept(slots)| - 1].tokenEnd == n && Consecutive(Kept(slots))
  {
    TokensAscend(ws);
    var records := Kept(slots);
    if AllFilled(slots) {
      FilledKeepsAll(slots);
      assert slots[0] == Some(records[0]) && slots[|ws| - 1] == Some(records[|ws| - 1]);
      forall k | 0 <= k < |records| - 1
        ensures records[k + 1].tokenStart <= records[k].tokenEnd && records[k + 1].ordinal == records[k].ordinal + 1
      {
        assert slots[k] == Some(records[k]) && slots[k + 1] == Some(records[k + 1]);
      }
    } else if records[0].tokenStart == 0 && records[|records| - 1].tokenEnd == n && Consecutive(records) {
      EdgesKept(ws, slots, n);
      ConsecutiveFillsAll(slots);
    }
  }

  lemma FilledKeepsAll(slots: seq<Option<Chunk>>)
    requires Numbered(slots) && AllFilled(slots)
    ensures |Kept(slots)| == |slots| && forall i :: 0 <= i < |slots| ==> slots[i] == Some(Kept(slots)[i])
  {
    KeptInOrder(slots);
    OrdinalsFill(Kept(slots), |slots|);
  }

  lemma EdgesKept(ws: seq<TokenWindow>, slots: seq<Option<Chunk>>, n: nat)
    requires SlotsOver(ws, slots) && TokensInOrder(ws, n) && Kept(slots) != []
    requires forall i, j :: 0 <= i < j < |ws| ==> ws[i].tokenStart < ws[j].tokenStart && ws[i].tokenEnd < ws[j].tokenEnd
    ensures Kept(slots)[0].tokenStart == 0 ==> Kept(slots)[0].ordinal == 0
    ensures Kept(slots)[|Kept(slots)| - 1].tokenEnd == n ==> Kept(slots)[|Kept(slots)| - 1].ordinal == |ws| - 1
  {
    KeptInOrder(slots);
  }

  lemma ConsecutiveFillsAll(slots: seq<Option<Chunk>>)
    requires Numbered(slots) && Kept(slots) != [] && Consecutive(Kept(slots))
    requires Kept(slots)[0].ordinal == 0 && Kept(slots)[|Kept(slots)| - 1].ordinal == |slots| - 1
    ensures AllFilled(slots)
  {
    KeptInOrder(slots);
    var records := Kept(slots);
    ConsecutiveOrdinals(records, |records| - 1);
    forall i | 0 <= i < |slots| ensures slots[i].Some? {
      ConsecutiveOrdinals(records, i);
    }
  }

  lemma TokensAscend(ws: seq<TokenWindow>)
    requires forall i, j :: 0 <= i < j < |ws| && j == i + 1 ==>
      ws[i].tokenStart < ws[j].tokenStart <= ws[i].tokenEnd < ws[j].tokenEnd
    ensures forall i, j :: 0 <= i < j < |ws| ==> ws[i].tokenStart < ws[j].tokenStart && ws[i].tokenEnd < ws[j].tokenEnd
  {
    forall i, j | 0 <= i < j < |ws| ensures ws[i].tokenStart < ws[j].tokenStart && ws[i].tokenEnd < ws[j].tokenEnd {
      var k := i + 1;
      while k < j
        invariant i < k <= j && ws[i].tokenStart < ws[k].tokenStart && ws[i].tokenEnd < ws[k].tokenEnd
      {
        k := k + 1;
      }
    }
  }

  lemma {:induction false} ConsecutiveOrdinals(records: seq<Chunk>, k: nat)
    requires Consecutive(records) && k < |records| && records[0].ordinal == 0
    ensures records[k].ordinal == k
  {
    if k > 0 {
      ConsecutiveOrdinals(records, k - 1);
      assert records[k - 1 + 1].ordinal == records[k - 1].ordinal + 1;
    }
  }

  lemma {:induction false} OrdinalAtLeast(records: seq<Chunk>, k: nat)
    requires forall k, l :: 0 <= k < l < |records| ==> records[k].ordinal < records[l].ordinal
    requires k < |records|
    ensures k <= records[k].ordinal
  {
    if k > 0 {
      OrdinalAtLeast(records, k - 1);
      assert records[k - 1].ordinal < records[k].ordinal;
    }
  }

  /** Strictly increasing ordinals that include every index are the indexes themselves. */
  lemma OrdinalsFill(records: seq<Chunk>, n: nat)
    requires forall k, l :: 0 <= k < l < |records| ==> records[k].ordinal < records[l].ordinal
    requires forall k :: 0 <= k < |records| ==> records[k].ordinal < n
    requires forall i :: 0 <= i < n ==> HasOrdinal(records, i)
    ensures |records| == n && forall k :: 0 <= k < n ==> records[k].ordinal == k
  {
    var i := 0;
    while i < n
      invariant i <= n && i <= |records|
      invariant forall k :: 0 <= k < i ==> records[k].ordinal == k
    {
      assert HasOrdinal(records, i);
      var k :| 0 <= k < |records| && records[k].ordinal == i;
      assert k >= i && (i > 0 ==> records[i - 1].ordinal < records[i].ordinal);
      i := i + 1;
    }
    if records != [] {
      OrdinalAtLeast(records, |records| - 1);
    }
  }

  // ----- the chunker

  predicate WindowMeets(w: TokenWindow, spans: seq<Span>) {
    Overlapping(spans, w.charStart, w.charEnd) != []
  }

  function TextOf(blocks: seq<Block>): seq<Scalar> {
    JoinedText(UsableBlocks(blocks))
  }

  predicate Tokenizes(tokenize: Tokenizer, text: seq<Scalar>) {
    tokenize(text) == [] || Join(tokenize(text)) == Encode(text)
  }

  ghost predicate Layout(blocks: seq<Block>, tokenize: Tokenizer, size: nat, overlap: nat, ws: seq<TokenWindow>,
                         spans: seq<Span>) {
    IsWindowing(TextOf(blocks), tokenize(TextOf(blocks)), size, overlap, ws) &&
      SpansOf(TextOf(blocks), UsableBlocks(blocks), spans)
  }

  /** No window falls between two blocks. */
  ghost predicate NoWindowAstray(blocks: seq<Block>, tokenize: Tokenizer, size: nat, overlap: nat) {
    exists ws: seq<TokenWindow>, spans: seq<Span> ::
      Layout(blocks, tokenize, size, overlap, ws, spans) && forall i :: 0 <= i < |ws| ==> WindowMeets(ws[i], spans)
  }

  /** One chunk for every window, in order. */
  ghost predicate IsChunking(blocks: seq<Block>, tokenize: Tokenizer, size: nat, overlap: nat,
                             ws: seq<TokenWindow>, spans: seq<Span>, chunks: seq<Chunk>)
    requires blocks != []
  {
    Layout(blocks, tokenize, size, overlap, ws, spans) && RecordPerWindow(blocks, spans, ws, chunks)
  }

  ghost predicate IsChunked(blocks: seq<Block>, tokenize: Tokenizer, size: nat, overlap: nat, chunks: seq<Chunk>)
    requires blocks != []
  {
    exists ws: seq<TokenWindow>, spans: seq<Span> :: IsChunking(blocks, tokenize, size, overlap, ws, spans, chunks)
  }

  ghost predicate RecordPerWindow(blocks: seq<Block>, spans: seq<Span>, ws: seq<TokenWindow>, chunks: seq<Chunk>)
    requires blocks != []
  {
    |chunks| == |ws| && forall i :: 0 <= i < |ws| ==> RecordFor(blocks, spans, ws[i], i) == Some(chunks[i])
  }

  lemma SpansUnique(text: seq<Scalar>, blocks: seq<Block>, a: seq<Span>, b: seq<Span>)
    requires SpansOf(text, blocks, a) && SpansOf(text, blocks, b)
    ensures a == b
  {
    var i := 0;
    while i < |a|
      invariant i <= |a| && a[..i] == b[..i]
    {
      assert i > 0 ==> a[i - 1] == a[..i][i - 1] == b[i - 1];
      assert |text[a[i].start..a[i].end]| == |text[b[i].start..b[i].end]|;
      i := i + 1;
    }
  }

  lemma LayoutUnique(blocks: seq<Block>, tokenize: Tokenizer, size: nat, overlap: nat,
                     ws: seq<TokenWindow>, spans: seq<Span>, ws': seq<TokenWindow>, spans': seq<Span>)
    requires Layout(blocks, tokenize, size, overlap, ws, spans) && Layout(blocks, tokenize, size, overlap, ws', spans')
    ensures ws == ws' && spans == spans'
  {
    Laws.WindowingUnique(TextOf(blocks), tokenize(TextOf(blocks)), size, overlap, ws, ws');
    SpansUnique(TextOf(blocks), UsableBlocks(blocks), spans, spans');
  }

  /** The window over a character of a block meets that block. */
  lemma BlockCovered(blocks: seq<Block>, tokenize: Tokenizer, size: nat, overlap: nat, ws: seq<TokenWindow>,
                     spans: seq<Span>, b: nat)
    returns (i: nat)
    requires Layout(blocks, tokenize, size, overlap, ws, spans) && Tokenizes(tokenize, TextOf(blocks))
    requires tokenize(TextOf(blocks)) != [] && b < |spans|
    ensures i < |ws| && Meets(spans[b], ws[i].charStart, ws[i].charEnd)
    ensures spans[b].block in Overlapping(spans, ws[i].charStart, ws[i].charEnd)
  {
    Laws.WindowsCoverText(TextOf(blocks), tokenize(TextOf(blocks)), size, overlap, ws);
    i := Laws.CharacterCovered(TextOf(blocks), ws, spans[b].start);
    OverlappingExact(spans, ws[i].charStart, ws[i].charEnd);
  }

  lemma NoSpans(text: seq<Scalar>, spans: seq<Span>)
    requires SpansOf(text, [], spans)
    ensures spans == []
  {
  }

  lemma NothingMeetsNoSpans(slots: seq<Option<Chunk>>)
    requires forall i :: 0 <= i < |slots| ==> slots[i].None?
    ensures Kept(slots) == []
  {
  }

  lemma SlotsNumbered(blocks: seq<Block>, spans: seq<Span>, ws: seq<TokenWindow>)
    requires blocks != []
    ensures SlotsOver(ws, Slots(blocks, spans, ws))
    ensures forall i :: 0 <= i < |ws| ==>
      && Slots(blocks, spans, ws)[i] == RecordFor(blocks, spans, ws[i], i)
      && (Slots(blocks, spans, ws)[i].Some? <==> WindowMeets(ws[i], spans))
  {
  }

  lemma LayoutInOrder(blocks: seq<Block>, tokenize: Tokenizer, size: nat, overlap: nat, ws: seq<TokenWindow>,
                      spans: seq<Span>)
    requires Layout(blocks, tokenize, size, overlap, ws, spans) && tokenize(TextOf(blocks)) != []
    ensures TokensInOrder(ws, |tokenize(TextOf(blocks))|)
  {
    var pieces := tokenize(TextOf(blocks));
    Laws.WindowsCover(SafePositions(pieces, |pieces|), |pieces|, size, overlap, ws);
  }

  lemma SomeRecord(blocks: seq<Block>, tokenize: Tokenizer, size: nat, overlap: nat, ws: seq<TokenWindow>,
                   spans: seq<Span>)
    requires UsableBlocks(blocks) != [] && Layout(blocks, tokenize, size, overlap, ws, spans)
    requires Tokenizes(tokenize, TextOf(blocks)) && tokenize(TextOf(blocks)) != []
    ensures exists i :: 0 <= i < |ws| && WindowMeets(ws[i], spans)
  {
    var i := BlockCovered(blocks, tokenize, size, overlap, ws, spans, 0);
    assert WindowMeets(ws[i], spans);
  }

  /** The closing checks of `FixedSplit`. */
  predicate ChecksPass(records: seq<Chunk>, n: nat) {
    records == [] ||
    (records[0].tokenStart == 0 && records[|records| - 1].tokenEnd == n && Consecutive(records) && DistinctIds(records))
  }

  /** What the closing checks decide, from the windows alone. */
  lemma ChecksDecide(blocks: seq<Block>, spans: seq<Span>, ws: seq<TokenWindow>, n: nat)
    requires blocks != [] && TokensInOrder(ws, n)
    requires exists i :: 0 <= i < |ws| && WindowMeets(ws[i], spans)
    ensures ChecksPass(Kept(Slots(blocks, spans, ws)), n) <==> forall i :: 0 <= i < |ws| ==> WindowMeets(ws[i], spans)
    ensures ChecksPass(Kept(Slots(blocks, spans, ws)), n) ==>
      RecordPerWindow(blocks, spans, ws, Kept(Slots(blocks, spans, ws)))
    ensures DistinctIds(Kept(Slots(blocks, spans, ws)))
  {
    var slots := Slots(blocks, spans, ws);
    SlotsNumbered(blocks, spans, ws);
    KeptSome(slots);
    ChecksFindSkippedWindows(ws, slots, n);
    if AllFilled(slots) {
      FilledKeepsAll(slots);
    }
  }

  lemma KeptSome(slots: seq<Option<Chunk>>)
    requires Numbered(slots)
    ensures (exists i :: 0 <= i < |slots| && slots[i].Some?) ==> Kept(slots) != []
    ensures DistinctIds(Kept(slots))
  {
    KeptInOrder(slots);
    if i :| 0 <= i < |slots| && slots[i].Some? {
      assert HasOrdinal(Kept(slots), i);
    }
  }

  /** The inputs that are chunked rather than refused. */
  ghost predicate Accepts(blocks: seq<Block>, tokenize: Tokenizer, size: nat, overlap: nat) {
    && OneDocument(blocks)
    && (blocks == [] || Tokenizes(tokenize, TextOf(blocks)))
    && (UsableBlocks(blocks) == [] || NoWindowAstray(blocks, tokenize, size, overlap))
  }

  method FixedSplit(blocks: seq<Block>, tokenize: Tokenizer, size: int, overlap: int)
    returns (r: Result<seq<Chunk>, ChunkError>)
    ensures r.Ok? <==> GoodSize(size, overlap) && Accepts(blocks, tokenize, size, overlap)
    ensures GoodSize(size, overlap) && OneDocument(blocks) && WideEnough(blocks, tokenize, size) ==> r.Ok?
    ensures r.Ok? && UsableBlocks(blocks) == [] ==> r.value == []
    ensures r.Ok? && UsableBlocks(blocks) != [] ==> blocks != [] && IsChunked(blocks, tokenize, size, overlap, r.value)
    ensures r != Err(RepeatedIds)
  {
    if size <= 0 || overlap < 0 || size <= overlap {
      return Err(NoWindows(BadSize));
    }
    if blocks == [] {
      NothingAccepted(tokenize, size, overlap);
      return Ok([]);
    }
    if !OneDocument(blocks) {
      return Err(MixedDocuments);
    }
    var text, spans := SourceText(blocks);
    var windows := SafeTokenWindows(text, tokenize, size, overlap);
    if windows.Err? {
      return Err(NoWindows(windows.error));
    }
    var ws := windows.value;
    var records := MakeRecords(blocks, spans, ws);
    ChecksSound(blocks, tokenize, size, overlap, ws, spans);
    if records != [] {
      var totalTokens := |tokenize(text)|;
      if records[0].tokenStart != 0 || records[|records| - 1].tokenEnd != totalTokens {
        return Err(NotCovering);
      }
      if !Consecutive(records) {
        return Err(GapOrOrdinal);
      }
      if !DistinctIds(records) {
        return Err(RepeatedIds);
      }
    }
    return Ok(records);
  }

  lemma NothingAccepted(tokenize: Tokenizer, size: nat, overlap: nat)
    ensures Accepts([], tokenize, size, overlap) && UsableBlocks([]) == []
  {
  }

  /** The closing checks decide, and what is returned when they pass. */
  lemma ChecksSound(blocks: seq<Block>, tokenize: Tokenizer, size: nat, overlap: nat, ws: seq<TokenWindow>,
                    spans: seq<Span>)
    requires blocks != [] && Layout(blocks, tokenize, size, overlap, ws, spans) && Tokenizes(tokenize, TextOf(blocks))
    requires overlap < size && OneDocument(blocks)
    ensures var records, n := Kept(Slots(blocks, spans, ws)), |tokenize(TextOf(blocks))|;
      && DistinctIds(records)
      && (ChecksPass(records, n) <==> Accepts(blocks, tokenize, size, overlap))
      && (WideEnough(blocks, tokenize, size) ==> ChecksPass(records, n))
      && (UsableBlocks(blocks) == [] ==> records == [])
      && (UsableBlocks(blocks) != [] && ChecksPass(records, n) ==> IsChunked(blocks, tokenize, size, overlap, records))
  {
    RecordsSound(blocks, tokenize, size, overlap, ws, spans);
    if WideEnough(blocks, tokenize, size) {
      WideWindowsAccepted(blocks, tokenize, size, overlap, ws, spans);
    }
  }

  lemma RecordsSound(blocks: seq<Block>, tokenize: Tokenizer, size: nat, overlap: nat, ws: seq<TokenWindow>,
                     spans: seq<Span>)
    requires blocks != [] && Layout(blocks, tokenize, size, overlap, ws, spans) && Tokenizes(tokenize, TextOf(blocks))
    ensures var records, n := Kept(Slots(blocks, spans, ws)), |tokenize(TextOf(blocks))|;
      && DistinctIds(records)
      && (UsableBlocks(blocks) == [] ==> records == [])
      && (UsableBlocks(blocks) != [] ==>
            && (ChecksPass(records, n) <==> NoWindowAstray(blocks, tokenize, size, overlap))
            && (ChecksPass(records, n) ==> IsChunking(blocks, tokenize, size, overlap, ws, spans, records)))
  {
    SlotsNumbered(blocks, spans, ws);
    if UsableBlocks(blocks) == [] {
      NoSpans(TextOf(blocks), spans);
      NothingMeetsNoSpans(Slots(blocks, spans, ws));
    } else {
      AstrayDecided(blocks, tokenize, size, overlap, ws, spans);
      if tokenize(TextOf(blocks)) != [] {
        LayoutInOrder(blocks, tokenize, size, overlap, ws, spans);
        SomeRecord(blocks, tokenize, size, overlap, ws, spans);
        ChecksDecide(blocks, spans, ws, |tokenize(TextOf(blocks))|);
      }
    }
  }

  lemma AstrayDecided(blocks: seq<Block>, tokenize: Tokenizer, size: nat, overlap: nat, ws: seq<TokenWindow>,
                      spans: seq<Span>)
    requires Layout(blocks, tokenize, size, overlap, ws, spans)
    ensures NoWindowAstray(blocks, tokenize, size, overlap) <==> forall i :: 0 <= i < |ws| ==> WindowMeets(ws[i], spans)
  {
    if NoWindowAstray(blocks, tokenize, size, overlap) {
      var ws', spans' :| Layout(blocks, tokenize, size, overlap, ws', spans') && forall i :: 0 <= i < |ws'| ==>
        WindowMeets(ws'[i], spans');
      LayoutUnique(blocks, tokenize, size, overlap, ws, spans, ws', spans');
    }
  }

  /** Wide windows: with gaps of at most `g` tokens between safe positions, windows of `g + 2` tokens never fall
      between two blocks. */
  lemma WideWindowsMeet(blocks: seq<Block>, tokenize: Tokenizer, size: nat, overlap: nat, g: nat,
                        ws: seq<TokenWindow>, spans: seq<Span>)
    requires Layout(blocks, tokenize, size, overlap, ws, spans) && Tokenizes(tokenize, TextOf(blocks)) && overlap < size
    requires NoEmptyPiece(tokenize(TextOf(blocks))) && GapsWithin(tokenize(TextOf(blocks)), g) && g + 2 <= size
    requires spans != []
    ensures forall i :: 0 <= i < |ws| ==> WindowMeets(ws[i], spans)
  {
    var text := TextOf(blocks);
    var pieces := tokenize(text);
    if pieces != [] {
      Laws.WindowsPointwise(SafePositions(pieces, |pieces|), |pieces|, size, overlap, ws);
      Laws.ContentsPointwise(text, pieces, ws);
      forall i | 0 <= i < |ws| ensures WindowMeets(ws[i], spans) {
        var k := WideWindowMeets(text, pieces, UsableBlocks(blocks), size, overlap, g, ws[i], spans);
        MeetsSome(spans, ws[i], k);
      }
    }
  }

  lemma MeetsSome(spans: seq<Span>, w: TokenWindow, k: nat)
    requires k < |spans| && Meets(spans[k], w.charStart, w.charEnd)
    ensures WindowMeets(w, spans)
  {
    OverlappingExact(spans, w.charStart, w.charEnd);
    assert spans[k].block in Overlapping(spans, w.charStart, w.charEnd);
  }

  /** What can be checked before splitting: tokens that are not empty, and windows two tokens wider than the gaps
      between safe positions. */
  ghost predicate WideEnough(blocks: seq<Block>, tokenize: Tokenizer, size: nat) {
    && Tokenizes(tokenize, TextOf(blocks)) && NoEmptyPiece(tokenize(TextOf(blocks)))
    && exists g: nat :: GapsWithin(tokenize(TextOf(blocks)), g) && g + 2 <= size
  }

  lemma WideWindowsAccepted(blocks: seq<Block>, tokenize: Tokenizer, size: nat, overlap: nat, ws: seq<TokenWindow>,
                            spans: seq<Span>)
    requires Layout(blocks, tokenize, size, overlap, ws, spans) && overlap < size
    requires WideEnough(blocks, tokenize, size) && OneDocument(blocks)
    ensures Accepts(blocks, tokenize, size, overlap)
  {
    var g: nat :| GapsWithin(tokenize(TextOf(blocks)), g) && g + 2 <= size;
    if UsableBlocks(blocks) != [] {
      WideWindowsMeet(blocks, tokenize, size, overlap, g, ws, spans);
    }
  }

  predicate NoEmptyPiece(pieces: seq<seq<Byte>>) {
    forall i :: 0 <= i < |pieces| ==> pieces[i] != []
  }

  ghost predicate GapsWithin(pieces: seq<seq<Byte>>, g: nat) {
    Laws.MaxGap(SafePositions(pieces, |pieces|), g)
  }

  lemma {:induction false} JoinAtLeast(pieces: seq<seq<Byte>>)
    requires NoEmptyPiece(pieces)
    ensures |pieces| <= |Join(pieces)|
  {
    if pieces != [] {
      JoinAtLeast(pieces[..|pieces| - 1]);
    }
  }

  /** A window's characters are as many bytes as its tokens, which are at least as many as the tokens. */
  lemma WindowBytes(text: seq<Scalar>, pieces: seq<seq<Byte>>, w: TokenWindow)
    requires Join(pieces) == Encode(text) && NoEmptyPiece(pieces) && ContentExact(text, pieces, w)
    requires w.tokenStart in SafePositions(pieces, |pieces|) && w.tokenEnd in SafePositions(pieces, |pieces|)
    requires w.tokenStart <= w.tokenEnd
    ensures w.tokenEnd - w.tokenStart <= |Encode(w.content)|
  {
    var a, b := w.tokenStart, w.tokenEnd;
    SafePrefix(text, pieces, a);
    SafePrefix(text, pieces, b);
    JoinSplit(pieces, a, b);
    JoinAtLeast(pieces[a..b]);
    BytesBetween(text, w.charStart, w.charEnd, Join(pieces[..a]), Join(pieces[a..b]));
  }

  lemma BytesBetween(text: seq<Scalar>, a: nat, b: nat, head: seq<Byte>, middle: seq<Byte>)
    requires a <= b <= |text| && head == Encode(text[..a]) && head + middle == Encode(text[..b])
    ensures |middle| == |Encode(text[a..b])|
  {
    assert text[..b] == text[..a] + text[a..b];
    EncodeConcat(text[..a], text[a..b]);
  }

  lemma SafePrefix(text: seq<Scalar>, pieces: seq<seq<Byte>>, i: nat)
    requires Join(pieces) == Encode(text) && i <= |pieces| && i in SafePositions(pieces, |pieces|)
    ensures CharsBefore(pieces, i) <= |text| && Join(pieces[..i]) == Encode(text[..CharsBefore(pieces, i)])
  {
    SafePositionsExact(text, pieces, i);
  }

  /** Where a character is: in a block, or between two. */
  lemma CharacterPlace(text: seq<Scalar>, blocks: seq<Block>, spans: seq<Span>, c: nat) returns (k: nat)
    requires SpansOf(text, blocks, spans) && c < |text|
    ensures k < |spans| && spans[k].start <= c
    ensures c < spans[k].end || (k + 1 < |spans| && c < spans[k + 1].start)
  {
    k := 0;
    while k + 1 < |spans| && spans[k + 1].start <= c
      invariant k < |spans| && spans[k].start <= c
    {
      k := k + 1;
    }
  }

  lemma WideWindowMeets(text: seq<Scalar>, pieces: seq<seq<Byte>>, blocks: seq<Block>, size: nat, overlap: nat, g: nat,
                        w: TokenWindow, spans: seq<Span>) returns (k: nat)
    requires Join(pieces) == Encode(text) && NoEmptyPiece(pieces) && GapsWithin(pieces, g) && overlap < size
    requires g + 2 <= size
    requires text == JoinedText(blocks) && SpansOf(text, blocks, spans) && ContentExact(text, pieces, w)
    requires IsSafeWindow(SafePositions(pieces, |pieces|), |pieces|, size, overlap, w)
    ensures k < |spans| && Meets(spans[k], w.charStart, w.charEnd)
  {
    WindowBytes(text, pieces, w);
    k := CharacterPlace(text, blocks, spans, w.charStart);
    if spans[k].end <= w.charStart {
      SeparatorBetween(blocks, spans, k);
      WindowNotAstray(text, pieces, size, overlap, g, w, spans[k].end, spans[k + 1].start);
      k := k + 1;
    }
  }

  /** A wide window does not lie within a separator before the end of the text. */
  lemma WindowNotAstray(text: seq<Scalar>, pieces: seq<seq<Byte>>, size: nat, overlap: nat, g: nat, w: TokenWindow,
                        a: nat, b: nat)
    requires Join(pieces) == Encode(text) && NoEmptyPiece(pieces) && GapsWithin(pieces, g) && overlap < size
    requires g + 2 <= size
    requires ContentExact(text, pieces, w) && IsSafeWindow(SafePositions(pieces, |pieces|), |pieces|, size, overlap, w)
    requires a <= w.charStart && b < |text| && a <= b && text[a..b] == SEPARATOR
    ensures b < w.charEnd
  {
    if w.charEnd <= b {
      WindowBytes(text, pieces, w);
      InsideSeparator(text, w, a, b);
      NotTheLast(text, pieces, w);
      DecodeEncode(text);
      ShortWindowIsLast(pieces, size, overlap, g, w);
    }
  }

  /** Two line feeds are two bytes, so a window among them has at most two tokens. */
  lemma InsideSeparator(text: seq<Scalar>, w: TokenWindow, a: nat, b: nat)
    requires a <= w.charStart <= w.charEnd <= b <= |text| && text[a..b] == SEPARATOR
    requires w.content == text[w.charStart..w.charEnd]
    ensures |Encode(w.content)| <= 2
  {
    forall i | 0 <= i < |w.content| ensures w.content[i] == 10 {
      assert w.content[i] == text[w.charStart + i] == text[a..b][w.charStart + i - a];
    }
    AsciiBytes(w.content);
  }

  lemma {:induction false} AsciiBytes(text: seq<Scalar>)
    requires forall i :: 0 <= i < |text| ==> text[i] < 0x80
    ensures |Encode(text)| == |text|
  {
    if text != [] {
      AsciiBytes(text[1..]);
    }
  }

  lemma NotTheLast(text: seq<Scalar>, pieces: seq<seq<Byte>>, w: TokenWindow)
    requires Join(pieces) == Encode(text) && ContentExact(text, pieces, w) && w.charEnd < |text|
    ensures w.tokenEnd < |pieces|
  {
    DecodeEncode(text);
    assert pieces[..|pieces|] == pieces;
    assert CharsBefore(pieces, |pieces|) == |text|;
  }

  /** A window of at most two tokens is cut by the end of the text, if windows are two tokens wider than gaps. */
  lemma ShortWindowIsLast(pieces: seq<seq<Byte>>, size: nat, overlap: nat, g: nat, w: TokenWindow)
    requires GapsWithin(pieces, g) && overlap < size && g + 2 <= size && w.tokenEnd <= w.tokenStart + 2
    requires IsSafeWindow(SafePositions(pieces, |pieces|), |pieces|, size, overlap, w)
    requires Complete(Join(pieces))
    ensures w.tokenEnd == |pieces|
  {
    var bs, n := SafePositions(pieces, |pieces|), |pieces|;
    SafePositionsMembers(pieces, n);
    assert pieces[..n] == pieces;
    Laws.LastIsEnd(bs, n);
    Laws.ReachesGap(bs, n, size, overlap, g, w);
  }

  /** Blocks of one document with these contents, all of them usable. */
  predicate TwoBlocks(blocks: seq<Block>, a: seq<Scalar>, b: seq<Scalar>) {
    && |blocks| == 2 && OneDocument(blocks) && Usable(blocks[0]) && Usable(blocks[1])
    && blocks[0].content == a && blocks[1].content == b
  }

  /** The width is needed: one-byte tokens leave gaps of one, and with windows of two tokens the blocks "ab" and
      "c" are refused, because the second window is the separator. */
  lemma NarrowWindowRefused(blocks: seq<Block>, tokenize: Tokenizer)
    requires TwoBlocks(blocks, [97, 98], [99]) && tokenize([97, 98, 10, 10, 99]) == Laws.Bytewise([97, 98, 10, 10, 99])
    ensures Tokenizes(tokenize, TextOf(blocks)) && NoEmptyPiece(tokenize(TextOf(blocks)))
    ensures GapsWithin(tokenize(TextOf(blocks)), 1)
    ensures !Accepts(blocks, tokenize, 2, 0)
  {
    var text: seq<Scalar> := [97, 98, 10, 10, 99];
    TwoBlocksText(blocks);
    Laws.AsciiEverywhere(text);
    if NoWindowAstray(blocks, tokenize, 2, 0) {
      var ws, spans :| Layout(blocks, tokenize, 2, 0, ws, spans) && forall i :: 0 <= i < |ws| ==>
        WindowMeets(ws[i], spans);
      SecondWindow(text, ws);
      SeparatorMeetsNone(text, blocks, spans);
      assert false;
    }
  }

  lemma TwoBlocksText(blocks: seq<Block>)
    requires TwoBlocks(blocks, [97, 98], [99])
    ensures UsableBlocks(blocks) == blocks && TextOf(blocks) == [97, 98, 10, 10, 99]
  {
    assert UsableTo(blocks, 1) == [blocks[0]] && UsableTo(blocks, 2) == [blocks[0]] + [blocks[1]];
    assert blocks == [blocks[0]] + [blocks[1]];
    assert blocks[..1] == [blocks[0]] && blocks[..1][..0] == [];
    assert JoinedText(blocks[..1]) == [97, 98];
  }

  lemma SecondWindow(text: seq<Scalar>, ws: seq<TokenWindow>)
    requires text == [97, 98, 10, 10, 99] && IsWindowing(text, Laws.Bytewise(text), 2, 0, ws)
    ensures |ws| >= 2 && ws[1].charStart == 2 && ws[1].charEnd == 4
  {
    var pieces := Laws.Bytewise(text);
    Laws.AsciiEverywhere(text);
    Laws.ClosedForm(SafePositions(pieces, 5), 5, 2, 0, ws);
    Laws.ContentsPointwise(text, pieces, ws);
    assert ws[0].tokenEnd == 2;
  }

  lemma SeparatorMeetsNone(text: seq<Scalar>, blocks: seq<Block>, spans: seq<Span>)
    requires TwoBlocks(blocks, [97, 98], [99]) && |text| == 5 && SpansOf(text, blocks, spans)
    ensures Overlapping(spans, 2, 4) == []
  {
    assert spans[0].end == 2 && spans[1].start == 4;
    assert Overlapping(spans, 2, 4) == [] || Overlapping(spans, 2, 4)[0] in Overlapping(spans, 2, 4);
    OverlappingExact(spans, 2, 4);
  }

  /** What a chunk says about the spans its window meets. */
  ghost predicate Describes(spans: seq<Span>, w: TokenWindow, ordinal: nat, c: Chunk) {
    && c.ordinal == ordinal && c.content == w.content && c.tokenStart == w.tokenStart && c.tokenEnd == w.tokenEnd
    && (forall id :: id in c.sources <==> exists b :: Met(spans, w, b) && spans[b].block.id == id)
    && (forall b :: Met(spans, w, b) ==> c.pageStart <= spans[b].block.page <= c.pageEnd)
    && (exists b :: Met(spans, w, b) && spans[b].block.page == c.pageStart)
    && (exists b :: Met(spans, w, b) && spans[b].block.page == c.pageEnd)
    && (c.section == [] || forall b :: Met(spans, w, b) ==> spans[b].block.section == c.section)
    && ((forall a, b :: Met(spans, w, a) && Met(spans, w, b) ==> spans[a].block.section == spans[b].block.section) ==>
          forall b :: Met(spans, w, b) ==> spans[b].block.section == c.section)
  }

  /** The window meets span `b`. */
  predicate Met(spans: seq<Span>, w: TokenWindow, b: int) {
    0 <= b < |spans| && Meets(spans[b], w.charStart, w.charEnd)
  }

  /** Its sources are the identifiers of the met blocks, in the order of the text. */
  lemma SourcesInOrder(blocks: seq<Block>, spans: seq<Span>, w: TokenWindow, ordinal: nat, c: Chunk)
    returns (at: seq<nat>)
    requires blocks != [] && RecordFor(blocks, spans, w, ordinal) == Some(c)
    ensures MeetingPlaces(spans, w.charStart, w.charEnd, at)
    ensures |c.sources| == |at|
    ensures forall k :: 0 <= k < |at| ==> at[k] < |spans| && c.sources[k] == spans[at[k]].block.id
    ensures c.id.document == blocks[0].document && c.id.snapshot == blocks[0].snapshot && c.id.ordinal == ordinal
    ensures c.id.tokenStart == w.tokenStart && c.id.tokenEnd == w.tokenEnd && c.id.content == w.content
  {
    at := OverlappingInOrder(spans, w.charStart, w.charEnd);
  }

  /** Provenance: when the chunker returns, each chunk names exactly the blocks its characters meet, the range
      of their pages, their section if they share one, and the window's tokens; and every usable block is named
      by some chunk (unless there were no tokens). */
  lemma ChunkProvenance(blocks: seq<Block>, tokenize: Tokenizer, size: nat, overlap: nat,
                        ws: seq<TokenWindow>, spans: seq<Span>, chunks: seq<Chunk>)
    requires blocks != [] && IsChunking(blocks, tokenize, size, overlap, ws, spans, chunks)
    requires Tokenizes(tokenize, TextOf(blocks))
    ensures |chunks| == |ws| && forall i :: 0 <= i < |chunks| ==> Describes(spans, ws[i], i, chunks[i])
    ensures tokenize(TextOf(blocks)) != [] ==>
      forall b :: 0 <= b < |spans| ==> exists i :: 0 <= i < |chunks| && spans[b].block.id in chunks[i].sources
  {
    forall i | 0 <= i < |chunks| ensures Describes(spans, ws[i], i, chunks[i]) {
      ChunkDescribes(blocks, spans, ws[i], i, chunks[i]);
    }
    if tokenize(TextOf(blocks)) != [] {
      forall b | 0 <= b < |spans| ensures exists i :: 0 <= i < |chunks| && spans[b].block.id in chunks[i].sources {
        var i := BlockCovered(blocks, tokenize, size, overlap, ws, spans, b);
        assert Met(spans, ws[i], b);
        assert spans[b].block.id in chunks[i].sources;
      }
    }
  }

  lemma ChunkDescribes(blocks: seq<Block>, spans: seq<Span>, w: TokenWindow, ordinal: nat, c: Chunk)
    requires blocks != [] && RecordFor(blocks, spans, w, ordinal) == Some(c)
    ensures Describes(spans, w, ordinal, c)
  {
    var sources := Overlapping(spans, w.charStart, w.charEnd);
    MetAreSources(spans, w);
    PageRange(sources);
    SourceIds(spans, w, c);
    CommonSectionExact(sources);
  }

  lemma MetAreSources(spans: seq<Span>, w: TokenWindow)
    ensures var sources := Overlapping(spans, w.charStart, w.charEnd);
      && (forall b :: Met(spans, w, b) ==> spans[b].block in sources)
      && (forall s :: s in sources ==> exists b :: Met(spans, w, b) && spans[b].block == s)
  {
    OverlappingExact(spans, w.charStart, w.charEnd);
    forall s | s in Overlapping(spans, w.charStart, w.charEnd)
      ensures exists b :: Met(spans, w, b) && spans[b].block == s
    {
      var b :| 0 <= b < |spans| && Meets(spans[b], w.charStart, w.charEnd) && spans[b].block == s;
      assert Met(spans, w, b);
    }
  }

  lemma CommonSectionExact(blocks: seq<Block>)
    requires blocks != []
    ensures CommonSection(blocks) == [] || forall b :: b in blocks ==> b.section == CommonSection(blocks)
    ensures (forall a, b :: a in blocks && b in blocks ==> a.section == b.section) ==>
      forall b :: b in blocks ==> b.section == CommonSection(blocks)
  {
    assert blocks[0] in blocks;
  }

  lemma SourceIds(spans: seq<Span>, w: TokenWindow, c: Chunk)
    requires c.sources == Ids(Overlapping(spans, w.charStart, w.charEnd))
    ensures forall id :: id in c.sources <==> exists b :: Met(spans, w, b) && spans[b].block.id == id
  {
    var sources := Overlapping(spans, w.charStart, w.charEnd);
    MetAreSources(spans, w);
    forall id | id in c.sources ensures exists b :: Met(spans, w, b) && spans[b].block.id == id {
      var k :| 0 <= k < |sources| && c.sources[k] == id;
      assert sources[k] in sources;
    }
    forall b | Met(spans, w, b) ensures spans[b].block.id in c.sources {
      var k :| 0 <= k < |sources| && sources[k] == spans[b].block;
      assert c.sources[k] == spans[b].block.id;
    }
  }
}
