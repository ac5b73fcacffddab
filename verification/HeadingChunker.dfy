/** Section-preferred chunking with one token stream per section run (src/ragbench/chunking/heading.py). */
module HeadingChunker {
  import opened Lists
  import opened Results
  import opened Utf8
  import opened TokenWindows
  import opened FixedChunker

  /** The hash of these fields, taken to be injective. */
  datatype SectionChunkId = SectionChunkId(fixed: ChunkId, ordinal: nat, tokenStart: nat, tokenEnd: nat,
    blocks: seq<string>)

  datatype SectionChunk = SectionChunk(
    id: SectionChunkId, ordinal: nat, pageStart: nat, pageEnd: nat, section: seq<string>,
    content: seq<Scalar>, tokenStart: nat, tokenEnd: nat, sources: seq<string>)

  // ----- section runs

  ghost predicate OneSection(group: seq<Block>) {
    group != [] && forall b :: b in group ==> b.section == group[0].section
  }

  /** Nonempty runs of one section each, no two neighbours with the same section. */
  ghost predicate SectionRuns(groups: seq<seq<Block>>) {
    && (forall g :: 0 <= g < |groups| ==> OneSection(groups[g]))
    && (forall g, h :: 0 <= g < h < |groups| && h == g + 1 ==> groups[g][0].section != groups[h][0].section)
  }

  method GroupBySection(usable: seq<Block>) returns (groups: seq<seq<Block>>)
    ensures Flat(groups) == usable && SectionRuns(groups)
  {
    groups := [];
    for i := 0 to |usable|
      invariant Flat(groups) == usable[..i] && SectionRuns(groups)
    {
      var block := usable[i];
      assert usable[..i + 1] == usable[..i] + [block];
      var last := |groups| - 1;
      if groups == [] || groups[last][0].section != block.section {
        NewRun(groups, block);
        FlatNext(groups, [block]);
        groups := groups + [[block]];
      } else {
        LongerRun(groups, block);
        groups := groups[last := groups[last] + [block]];
      }
    }
    assert usable[..|usable|] == usable;
  }

  lemma NewRun(groups: seq<seq<Block>>, block: Block)
    requires SectionRuns(groups) && (groups == [] || groups[|groups| - 1][0].section != block.section)
    ensures SectionRuns(groups + [[block]])
  {
    var run := [block];
    var more: seq<seq<Block>> := groups + [run];
    assert OneSection(run);
    forall g, h | 0 <= g < h < |more| && h == g + 1 ensures more[g][0].section != more[h][0].section {
      if h < |groups| {
        assert more[h] == groups[h];
      } else {
        assert more[h] == run;
      }
    }
  }

  lemma LongerRun(groups: seq<seq<Block>>, block: Block)
    requires SectionRuns(groups) && groups != [] && groups[|groups| - 1][0].section == block.section
    ensures var last := |groups| - 1; var longer := groups[last := groups[last] + [block]];
      SectionRuns(longer) && Flat(longer) == Flat(groups) + [block]
  {
    var last := |groups| - 1;
    var run := groups[last] + [block];
    assert OneSection(groups[last]) && OneSection(run);
    var longer := groups[last := run];
    assert longer == groups[..last] + [run] && groups == groups[..last] + [groups[last]];
    FlatNext(groups[..last], run);
    FlatNext(groups[..last], groups[last]);
    assert Flat(groups[..last]) + run == (Flat(groups[..last]) + groups[last]) + [block];
  }

  // ----- shifting a run's chunks into the document

  function Shift(c: Chunk, base: nat, ordinal: nat, section: seq<string>): SectionChunk {
    var id := SectionChunkId(c.id, ordinal, base + c.tokenStart, base + c.tokenEnd, c.sources);
    SectionChunk(id, ordinal, c.pageStart, c.pageEnd, section, c.content, base + c.tokenStart, base + c.tokenEnd,
      c.sources)
  }

  function ShiftAll(part: seq<Chunk>, base: nat, first: nat, section: seq<string>): (out: seq<SectionChunk>)
    ensures |out| == |part|
  {
    seq(|part|, k requires 0 <= k < |part| => Shift(part[k], base, first + k, section))
  }

  /** Tokens of the runs before run `k`. */
  function TokenBase(groups: seq<seq<Block>>, tokenize: Tokenizer, k: nat): nat
    requires k <= |groups|
  {
    if k == 0 then 0 else TokenBase(groups, tokenize, k - 1) + |tokenize(JoinedText(groups[k - 1]))|
  }

  /** The document's chunks from the chunks of its first `k` runs. */
  function Assemble(groups: seq<seq<Block>>, parts: seq<seq<Chunk>>, tokenize: Tokenizer, k: nat): seq<SectionChunk>
    requires k <= |parts| <= |groups| && forall g :: 0 <= g < |groups| ==> groups[g] != []
  {
    if k == 0 then []
    else
      var before := Assemble(groups, parts, tokenize, k - 1);
      before + ShiftAll(parts[k - 1], TokenBase(groups, tokenize, k - 1), |before|, groups[k - 1][0].section)
  }

  ghost predicate PartsOf(groups: seq<seq<Block>>, parts: seq<seq<Chunk>>, tokenize: Tokenizer, size: nat, overlap: nat)
    requires |parts| <= |groups|
  {
    if parts == [] then true
    else
      var k := |parts| - 1;
      IsPart(groups[k], parts[k], tokenize, size, overlap) && PartsOf(groups, parts[..k], tokenize, size, overlap)
  }

  lemma {:induction false} PartAt(groups: seq<seq<Block>>, parts: seq<seq<Chunk>>, tokenize: Tokenizer, size: nat,
                                  overlap: nat, g: nat)
    requires |parts| <= |groups| && PartsOf(groups, parts, tokenize, size, overlap) && g < |parts|
    ensures IsPart(groups[g], parts[g], tokenize, size, overlap)
  {
    if g < |parts| - 1 {
      PartAt(groups, parts[..|parts| - 1], tokenize, size, overlap, g);
    }
  }

  ghost predicate IsPart(group: seq<Block>, part: seq<Chunk>, tokenize: Tokenizer, size: nat, overlap: nat) {
    && group != [] && UsableBlocks(group) == group && Accepts(group, tokenize, size, overlap)
    && IsChunked(group, tokenize, size, overlap, part)
  }

  lemma {:induction false} AllUsable(group: seq<Block>, n: nat)
    requires n <= |group| && forall i :: 0 <= i < |group| ==> Usable(group[i])
    ensures UsableTo(group, n) == group[..n]
  {
    if n > 0 {
      AllUsable(group, n - 1);
    }
  }

  lemma {:induction false} UsableOnly(blocks: seq<Block>, n: nat)
    requires n <= |blocks|
    ensures forall b :: b in UsableTo(blocks, n) <==> b in blocks[..n] && Usable(b)
  {
    if n > 0 {
      UsableOnly(blocks, n - 1);
      assert blocks[..n] == blocks[..n - 1] + [blocks[n - 1]];
    }
  }

  lemma {:induction false} FlatMembers(groups: seq<seq<Block>>)
    ensures forall b :: b in Flat(groups) <==> exists g :: 0 <= g < |groups| && b in groups[g]
  {
    if groups != [] {
      FlatMembers(groups[..|groups| - 1]);
    }
  }

  method HeadingSplit(blocks: seq<Block>, tokenize: Tokenizer, size: int, overlap: int)
    returns (r: Result<seq<SectionChunk>, ChunkError>, ghost groups: seq<seq<Block>>, ghost parts: seq<seq<Chunk>>)
    ensures Flat(groups) == UsableBlocks(blocks) && SectionRuns(groups)
    ensures r.Ok? <==> GoodSize(size, overlap) && forall g :: 0 <= g < |groups| ==>
      Accepts(groups[g], tokenize, size, overlap)
    ensures r.Ok? ==>
      && |parts| == |groups|
      && PartsOf(groups, parts, tokenize, size, overlap)
      && r.value == Assemble(groups, parts, tokenize, |groups|)
  {
    parts := [];
    var usable := UsableBlocks(blocks);
    var runs := GroupBySection(usable);
    groups := runs;
    if size <= 0 || overlap < 0 || size <= overlap {
      return Err(NoWindows(BadSize)), groups, parts;
    }
    var output: seq<SectionChunk> := [];
    var tokenBase := 0;
    for k := 0 to |runs|
      invariant |parts| == k
      invariant PartsOf(runs, parts, tokenize, size, overlap)
      invariant tokenBase == TokenBase(runs, tokenize, k)
      invariant output == Assemble(runs, parts, tokenize, k)
    {
      var group := runs[k];
      RunUsable(blocks, runs, k);
      var candidates := SplitRun(group, tokenize, size, overlap);
      if candidates.Err? {
        return Err(candidates.error), groups, parts;
      }
      var part := candidates.value;
      PartsNext(runs, parts, part, tokenize, size, overlap);
      AssembleNext(runs, parts, part, tokenize);
      parts := parts + [part];
      output := output + ShiftAll(part, tokenBase, |output|, group[0].section);
      tokenBase := tokenBase + |tokenize(JoinedText(group))|;
    }
    AllAccepted(runs, parts, tokenize, size, overlap);
    return Ok(output), groups, parts;
  }

  lemma PartsNext(groups: seq<seq<Block>>, parts: seq<seq<Chunk>>, part: seq<Chunk>, tokenize: Tokenizer, size: nat,
                  overlap: nat)
    requires |parts| < |groups|
    requires PartsOf(groups, parts, tokenize, size, overlap) && IsPart(groups[|parts|], part, tokenize, size, overlap)
    ensures PartsOf(groups, parts + [part], tokenize, size, overlap)
  {
    var longer := parts + [part];
    assert longer[..|longer| - 1] == parts && longer[|longer| - 1] == part;
  }

  lemma AssembleNext(groups: seq<seq<Block>>, parts: seq<seq<Chunk>>, part: seq<Chunk>, tokenize: Tokenizer)
    requires |parts| < |groups| && (forall g :: 0 <= g < |groups| ==> groups[g] != [])
    ensures var k := |parts|; var before := Assemble(groups, parts, tokenize, k);
      Assemble(groups, parts + [part], tokenize, k + 1) ==
        before + ShiftAll(part, TokenBase(groups, tokenize, k), |before|, groups[k][0].section)
  {
    AssembleIgnoresLater(groups, parts, part, tokenize, |parts|);
    assert (parts + [part])[|parts|] == part;
  }

  lemma AllAccepted(groups: seq<seq<Block>>, parts: seq<seq<Chunk>>, tokenize: Tokenizer, size: nat, overlap: nat)
    requires |parts| <= |groups| && PartsOf(groups, parts, tokenize, size, overlap)
    ensures forall g :: 0 <= g < |parts| ==> Accepts(groups[g], tokenize, size, overlap)
  {
    forall g | 0 <= g < |parts| ensures Accepts(groups[g], tokenize, size, overlap) {
      PartAt(groups, parts, tokenize, size, overlap, g);
    }
  }

  method SplitRun(group: seq<Block>, tokenize: Tokenizer, size: nat, overlap: nat)
    returns (r: Result<seq<Chunk>, ChunkError>)
    requires overlap < size && group != [] && UsableBlocks(group) == group
    ensures r.Ok? <==> Accepts(group, tokenize, size, overlap)
    ensures r.Ok? ==> IsPart(group, r.value, tokenize, size, overlap)
  {
    r := FixedSplit(group, tokenize, size, overlap);
  }

  lemma RunUsable(blocks: seq<Block>, groups: seq<seq<Block>>, k: nat)
    requires Flat(groups) == UsableBlocks(blocks) && k < |groups|
    ensures UsableBlocks(groups[k]) == groups[k]
  {
    FlatMembers(groups);
    UsableOnly(blocks, |blocks|);
    forall i | 0 <= i < |groups[k]| ensures Usable(groups[k][i]) {
      assert groups[k][i] in Flat(groups);
    }
    AllUsable(groups[k], |groups[k]|);
    assert groups[k][..|groups[k]|] == groups[k];
  }

  lemma {:induction false} AssembleIgnoresLater(groups: seq<seq<Block>>, parts: seq<seq<Chunk>>, part: seq<Chunk>,
                                                tokenize: Tokenizer, k: nat)
    requires k <= |parts| < |groups| && forall g :: 0 <= g < |groups| ==> groups[g] != []
    ensures Assemble(groups, parts + [part], tokenize, k) == Assemble(groups, parts, tokenize, k)
  {
    if k > 0 {
      AssembleIgnoresLater(groups, parts, part, tokenize, k - 1);
    }
  }

  // ----- what the document's chunks satisfy

  /** A run's chunks run over its tokens without a gap; they are absent only when it has no tokens. */
  ghost predicate PartInOrder(part: seq<Chunk>, n: nat) {
    && (part == [] ==> n == 0)
    && (part != [] ==> part[0].tokenStart == 0 && part[|part| - 1].tokenEnd == n)
    && forall i, j :: 0 <= i < j < |part| && j == i + 1 ==> part[j].tokenStart <= part[i].tokenEnd
  }

  lemma RecordTokens(group: seq<Block>, spans: seq<Span>, ws: seq<TokenWindow>, part: seq<Chunk>)
    requires group != [] && RecordPerWindow(group, spans, ws, part)
    ensures forall i :: 0 <= i < |part| ==> part[i].tokenStart == ws[i].tokenStart && part[i].tokenEnd == ws[i].tokenEnd
  {
    forall i | 0 <= i < |part| ensures part[i].tokenStart == ws[i].tokenStart && part[i].tokenEnd == ws[i].tokenEnd {
      assert RecordFor(group, spans, ws[i], i) == Some(part[i]);
    }
  }

  lemma PartTokens(group: seq<Block>, part: seq<Chunk>, tokenize: Tokenizer, size: nat, overlap: nat)
    requires IsPart(group, part, tokenize, size, overlap)
    ensures PartInOrder(part, |tokenize(JoinedText(group))|)
  {
    var ws: seq<TokenWindow>, spans: seq<Span> :| IsChunking(group, tokenize, size, overlap, ws, spans, part);
    RecordTokens(group, spans, ws, part);
    if tokenize(JoinedText(group)) != [] {
      LayoutInOrder(group, tokenize, size, overlap, ws, spans);
    }
  }

  /** Ordinals are positions, and the token ranges cover 0 to `n` in order without a gap. */
  ghost predicate InDocumentOrder(chunks: seq<SectionChunk>, n: nat) {
    && (forall i :: 0 <= i < |chunks| ==> chunks[i].ordinal == i)
    && (chunks == [] ==> n == 0)
    && (chunks != [] ==> chunks[0].tokenStart == 0 && chunks[|chunks| - 1].tokenEnd == n)
    && forall i, j :: 0 <= i < j < |chunks| && j == i + 1 ==> chunks[j].tokenStart <= chunks[i].tokenEnd
  }

  lemma {:induction false} AssembledInOrder(groups: seq<seq<Block>>, parts: seq<seq<Chunk>>, tokenize: Tokenizer,
                                            k: nat)
    requires k <= |parts| <= |groups| && forall g :: 0 <= g < |groups| ==> groups[g] != []
    requires forall g :: 0 <= g < k ==> PartInOrder(parts[g], |tokenize(JoinedText(groups[g]))|)
    ensures InDocumentOrder(Assemble(groups, parts, tokenize, k), TokenBase(groups, tokenize, k))
  {
    if k > 0 {
      AssembledInOrder(groups, parts, tokenize, k - 1);
      AppendPart(Assemble(groups, parts, tokenize, k - 1), parts[k - 1], TokenBase(groups, tokenize, k - 1),
                 |tokenize(JoinedText(groups[k - 1]))|, groups[k - 1][0].section);
    }
  }

  lemma AppendPart(before: seq<SectionChunk>, part: seq<Chunk>, base: nat, n: nat, section: seq<string>)
    requires InDocumentOrder(before, base) && PartInOrder(part, n)
    ensures InDocumentOrder(before + ShiftAll(part, base, |before|, section), base + n)
  {
  }

  /** The shifted token ranges cover the concatenated token streams of all runs without gaps. */
  lemma SectionsCover(groups: seq<seq<Block>>, parts: seq<seq<Chunk>>, tokenize: Tokenizer, size: nat, overlap: nat)
    requires |parts| == |groups| && forall g :: 0 <= g < |groups| ==> groups[g] != []
    requires PartsOf(groups, parts, tokenize, size, overlap)
    ensures InDocumentOrder(Assemble(groups, parts, tokenize, |groups|), TokenBase(groups, tokenize, |groups|))
  {
    forall g | 0 <= g < |groups| ensures PartInOrder(parts[g], |tokenize(JoinedText(groups[g]))|) {
      PartAt(groups, parts, tokenize, size, overlap, g);
      PartTokens(groups[g], parts[g], tokenize, size, overlap);
    }
    AssembledInOrder(groups, parts, tokenize, |groups|);
  }

  /** The chunk of run `g` that chunk `i` of the document is. */
  lemma {:induction false} ComesFrom(groups: seq<seq<Block>>, parts: seq<seq<Chunk>>, tokenize: Tokenizer, k: nat,
                                     i: nat)
    returns (g: nat, j: nat)
    requires k <= |parts| <= |groups| && forall g :: 0 <= g < |groups| ==> groups[g] != []
    requires i < |Assemble(groups, parts, tokenize, k)|
    ensures g < k && j < |parts[g]|
    ensures Assemble(groups, parts, tokenize, k)[i] ==
      Shift(parts[g][j], TokenBase(groups, tokenize, g), i, groups[g][0].section)
  {
    var before := Assemble(groups, parts, tokenize, k - 1);
    OrdinalsFollow(groups, parts, tokenize, k);
    if i < |before| {
      g, j := ComesFrom(groups, parts, tokenize, k - 1, i);
    } else {
      g, j := k - 1, i - |before|;
    }
  }

  lemma OrdinalsFollow(groups: seq<seq<Block>>, parts: seq<seq<Chunk>>, tokenize: Tokenizer, k: nat)
    requires 0 < k <= |parts| <= |groups| && forall g :: 0 <= g < |groups| ==> groups[g] != []
    ensures var before, all := Assemble(groups, parts, tokenize, k - 1), Assemble(groups, parts, tokenize, k);
      && |all| == |before| + |parts[k - 1]|
      && (forall i :: 0 <= i < |before| ==> all[i] == before[i])
      && (forall i :: |before| <= i < |all| ==>
            all[i] == Shift(parts[k - 1][i - |before|], TokenBase(groups, tokenize, k - 1), i,
              groups[k - 1][0].section))
  {
  }

  /** And every chunk of every run is some chunk of the document. */
  lemma {:induction false} GoesTo(groups: seq<seq<Block>>, parts: seq<seq<Chunk>>, tokenize: Tokenizer, k: nat, g: nat,
                                  j: nat)
    returns (i: nat)
    requires k <= |parts| <= |groups| && forall g :: 0 <= g < |groups| ==> groups[g] != []
    requires g < k && j < |parts[g]|
    ensures i < |Assemble(groups, parts, tokenize, k)|
    ensures Assemble(groups, parts, tokenize, k)[i] ==
      Shift(parts[g][j], TokenBase(groups, tokenize, g), i, groups[g][0].section)
  {
    OrdinalsFollow(groups, parts, tokenize, k);
    if g < k - 1 {
      i := GoesTo(groups, parts, tokenize, k - 1, g, j);
    } else {
      i := |Assemble(groups, parts, tokenize, k - 1)| + j;
    }
  }

  /** The document's chunk has the content, pages and sources of the run's, its tokens moved by the base. */
  predicate CarriesOver(d: SectionChunk, c: Chunk, base: nat) {
    && d.content == c.content && d.pageStart == c.pageStart && d.pageEnd == c.pageEnd && d.sources == c.sources
    && d.tokenStart == base + c.tokenStart && d.tokenEnd == base + c.tokenEnd
  }

  /** Every chunk comes from exactly one run: it is chunk `j` of run `g` carried over, its section is the run's
      and its sources are blocks of it. */
  lemma ChunksStayInRun(groups: seq<seq<Block>>, parts: seq<seq<Chunk>>, tokenize: Tokenizer, size: nat, overlap: nat,
                        i: nat)
    returns (g: nat, j: nat)
    requires |parts| == |groups| && forall g :: 0 <= g < |groups| ==> groups[g] != []
    requires PartsOf(groups, parts, tokenize, size, overlap)
    requires i < |Assemble(groups, parts, tokenize, |groups|)|
    ensures g < |groups| && Assemble(groups, parts, tokenize, |groups|)[i].section == groups[g][0].section
    ensures j < |parts[g]| && Assemble(groups, parts, tokenize, |groups|)[i].ordinal == i
    ensures CarriesOver(Assemble(groups, parts, tokenize, |groups|)[i], parts[g][j], TokenBase(groups, tokenize, g))
    ensures forall id :: id in Assemble(groups, parts, tokenize, |groups|)[i].sources ==>
      exists b :: b in groups[g] && b.id == id
  {
    g, j := ComesFrom(groups, parts, tokenize, |groups|, i);
    PartAt(groups, parts, tokenize, size, overlap, g);
    SourcesInGroup(groups[g], parts[g], tokenize, size, overlap, j);
  }

  lemma SourcesInGroup(group: seq<Block>, part: seq<Chunk>, tokenize: Tokenizer, size: nat, overlap: nat, i: nat)
    requires IsPart(group, part, tokenize, size, overlap) && i < |part|
    ensures forall id :: id in part[i].sources ==> exists b :: b in group && b.id == id
  {
    var ws: seq<TokenWindow>, spans: seq<Span> :| IsChunking(group, tokenize, size, overlap, ws, spans, part);
    assert RecordFor(group, spans, ws[i], i) == Some(part[i]);
    SourceIds(spans, ws[i], part[i]);
    forall id | id in part[i].sources ensures exists b :: b in group && b.id == id {
      var b :| Met(spans, ws[i], b) && spans[b].block.id == id;
      assert spans[b].block == group[b] && group[b] in group;
    }
  }

  /** Every usable block of a run that has tokens is named by some chunk of the document. */
  lemma RunBlocksNamed(groups: seq<seq<Block>>, parts: seq<seq<Chunk>>, tokenize: Tokenizer, size: nat, overlap: nat,
                       g: nat, b: nat)
    requires |parts| == |groups| && forall g :: 0 <= g < |groups| ==> groups[g] != []
    requires PartsOf(groups, parts, tokenize, size, overlap)
    requires g < |groups| && b < |groups[g]| && tokenize(JoinedText(groups[g])) != []
    ensures exists i :: 0 <= i < |Assemble(groups, parts, tokenize, |groups|)|
                     && groups[g][b].id in Assemble(groups, parts, tokenize, |groups|)[i].sources
  {
    PartAt(groups, parts, tokenize, size, overlap, g);
    var j := BlockNamed(groups[g], parts[g], tokenize, size, overlap, b);
    var i := GoesTo(groups, parts, tokenize, |groups|, g, j);
  }

  lemma BlockNamed(group: seq<Block>, part: seq<Chunk>, tokenize: Tokenizer, size: nat, overlap: nat, b: nat)
    returns (j: nat)
    requires IsPart(group, part, tokenize, size, overlap) && b < |group| && tokenize(JoinedText(group)) != []
    ensures j < |part| && group[b].id in part[j].sources
  {
    var ws: seq<TokenWindow>, spans: seq<Span> :| IsChunking(group, tokenize, size, overlap, ws, spans, part);
    j := BlockCovered(group, tokenize, size, overlap, ws, spans, b);
    assert RecordFor(group, spans, ws[j], j) == Some(part[j]);
    SourceIds(spans, ws[j], part[j]);
    assert Met(spans, ws[j], b) && spans[b].block == group[b];
  }
}
