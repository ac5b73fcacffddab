/** Greedy batching of embedding requests (src/ragbench/embeddings/service.py), and why no other division of the
    chunks into consecutive batches needs fewer requests. */
module EmbeddingBatches {
  import opened Lists
  import opened Results

  datatype Chunk = Chunk(id: string, document: string, content: string, tokens: nat)

  datatype Limits = Limits(items: nat, tokens: nat)

  datatype BatchError = ChunkTooLarge

  function Tokens(chunks: seq<Chunk>): nat {
    if chunks == [] then 0 else Tokens(chunks[..|chunks| - 1]) + chunks[|chunks| - 1].tokens
  }

  predicate Within(limits: Limits, batch: seq<Chunk>) {
    |batch| <= limits.items && Tokens(batch) <= limits.tokens
  }

  /** The chunks in order, in batches within the limits. */
  ghost predicate AreBatches(limits: Limits, chunks: seq<Chunk>, batches: seq<seq<Chunk>>) {
    Flat(batches) == chunks && forall b :: 0 <= b < |batches| ==> Within(limits, batches[b])
  }

  /** No batch but the last has room for the chunk after it. */
  ghost predicate Full(limits: Limits, batches: seq<seq<Chunk>>) {
    && (forall b :: 0 <= b < |batches| ==> batches[b] != [])
    && (forall b, c :: 0 <= b < c < |batches| && c == b + 1 ==> !Within(limits, batches[b] + [batches[c][0]]))
  }

  lemma {:induction false} TokensConcat(a: seq<Chunk>, b: seq<Chunk>)
    ensures Tokens(a + b) == Tokens(a) + Tokens(b)
  {
    if b == [] {
      assert a + b == a;
    } else {
      TokensConcat(a, b[..|b| - 1]);
      assert (a + b)[..|a + b| - 1] == a + b[..|b| - 1];
    }
  }

  /** The chunks so far: closed batches and the current one. */
  ghost predicate Packed(limits: Limits, chunks: seq<Chunk>, batches: seq<seq<Chunk>>, current: seq<Chunk>) {
    if chunks == [] then batches == [] && current == []
    else current != [] && AreBatches(limits, chunks, batches + [current]) && Full(limits, batches + [current])
  }

  method Batches(limits: Limits, chunks: seq<Chunk>) returns (r: Result<seq<seq<Chunk>>, BatchError>)
    requires limits.items > 0 && limits.tokens > 0
    ensures r.Err? <==> exists c :: c in chunks && c.tokens > limits.tokens
    ensures r.Ok? ==> AreBatches(limits, chunks, r.value) && Full(limits, r.value)
  {
    var batches: seq<seq<Chunk>>, current: seq<Chunk>, currentTokens: nat := [], [], 0;
    for i := 0 to |chunks|
      invariant currentTokens == Tokens(current) && Packed(limits, chunks[..i], batches, current)
      invariant forall c :: c in chunks[..i] ==> c.tokens <= limits.tokens
    {
      var chunk := chunks[i];
      assert chunks[..i + 1] == chunks[..i] + [chunk];
      if chunk.tokens > limits.tokens {
        return Err(ChunkTooLarge);
      }
      PackedNext(limits, chunks[..i], batches, current, chunk);
      if current != [] && (|current| >= limits.items || currentTokens + chunk.tokens > limits.tokens) {
        batches := batches + [current];
        current, currentTokens := [], 0;
      }
      current := current + [chunk];
      currentTokens := currentTokens + chunk.tokens;
    }
    assert chunks[..|chunks|] == chunks;
    if current != [] {
      batches := batches + [current];
    }
    return Ok(batches);
  }

  lemma PackedNext(limits: Limits, chunks: seq<Chunk>, batches: seq<seq<Chunk>>, current: seq<Chunk>, chunk: Chunk)
    requires limits.items > 0 && Packed(limits, chunks, batches, current) && chunk.tokens <= limits.tokens
    ensures Tokens(current + [chunk]) == Tokens(current) + chunk.tokens
    ensures [] + [chunk] == [chunk]
    ensures current != [] && (|current| >= limits.items || Tokens(current) + chunk.tokens > limits.tokens) ==>
      Packed(limits, chunks + [chunk], batches + [current], [chunk])
    ensures current == [] || (|current| < limits.items && Tokens(current) + chunk.tokens <= limits.tokens) ==>
      Packed(limits, chunks + [chunk], batches, current + [chunk])
  {
    TokensNext(current, chunk);
    if current == [] {
      FirstBatch(limits, chunk);
      assert chunks + [chunk] == [chunk] && current + [chunk] == [chunk];
    } else if |current| >= limits.items || Tokens(current) + chunk.tokens > limits.tokens {
      TokensNext([], chunk);
      NewBatch(limits, chunks, batches + [current], chunk);
    } else {
      LongerBatch(limits, chunks, batches, current, chunk);
    }
  }

  lemma TokensNext(chunks: seq<Chunk>, chunk: Chunk)
    ensures Tokens(chunks + [chunk]) == Tokens(chunks) + chunk.tokens
  {
    assert (chunks + [chunk])[..|chunks|] == chunks;
  }

  lemma FirstBatch(limits: Limits, chunk: Chunk)
    requires limits.items > 0 && chunk.tokens <= limits.tokens
    ensures Packed(limits, [chunk], [], [chunk])
  {
    TokensNext([], chunk);
    FlatNext([], [chunk]);
    assert [] + [chunk] == [chunk] && [] + [[chunk]] == [[chunk]];
  }

  lemma NewBatch(limits: Limits, chunks: seq<Chunk>, batches: seq<seq<Chunk>>, chunk: Chunk)
    requires AreBatches(limits, chunks, batches) && Full(limits, batches) && Within(limits, [chunk])
    requires batches != [] && !Within(limits, batches[|batches| - 1] + [chunk])
    ensures AreBatches(limits, chunks + [chunk], batches + [[chunk]]) && Full(limits, batches + [[chunk]])
  {
    FlatNext(batches, [chunk]);
  }

  lemma LongerBatch(limits: Limits, chunks: seq<Chunk>, batches: seq<seq<Chunk>>, current: seq<Chunk>, chunk: Chunk)
    requires current != [] && AreBatches(limits, chunks, batches + [current]) && Full(limits, batches + [current])
    requires Within(limits, current + [chunk])
    ensures AreBatches(limits, chunks + [chunk], batches + [current + [chunk]])
    ensures Full(limits, batches + [current + [chunk]])
  {
    FlatNext(batches, current);
    FlatNext(batches, current + [chunk]);
    assert Flat(batches) + (current + [chunk]) == (Flat(batches) + current) + [chunk];
    assert (current + [chunk])[0] == current[0];
    var shorter, longer := batches + [current], batches + [current + [chunk]];
    forall b, c | 0 <= b < c < |longer| && c == b + 1 ensures !Within(limits, longer[b] + [longer[c][0]]) {
      assert longer[b] == shorter[b] && longer[c][0] == shorter[c][0];
    }
  }

  // ----- optimality

  lemma {:induction false} FlatPrefix(batches: seq<seq<Chunk>>, j: nat)
    requires j <= |batches|
    ensures |Flat(batches[..j])| <= |Flat(batches)| && Flat(batches[..j]) == Flat(batches)[..|Flat(batches[..j])|]
  {
    if j == |batches| {
      assert batches[..j] == batches;
    } else {
      FlatPrefix(batches[..|batches| - 1], j);
      assert batches[..|batches| - 1][..j] == batches[..j];
    }
  }

  lemma SubrangeTokens(chunks: seq<Chunk>, a: nat, b: nat, c: nat, d: nat)
    requires a <= b <= c <= d <= |chunks|
    ensures Tokens(chunks[b..c]) <= Tokens(chunks[a..d])
  {
    RangesJoin(chunks, a, b, c);
    RangesJoin(chunks, a, c, d);
  }

  lemma RangesJoin(chunks: seq<Chunk>, a: nat, b: nat, c: nat)
    requires a <= b <= c <= |chunks|
    ensures Tokens(chunks[a..c]) == Tokens(chunks[a..b]) + Tokens(chunks[b..c])
  {
    assert chunks[a..b] + chunks[b..c] == chunks[a..c];
    TokensConcat(chunks[a..b], chunks[b..c]);
  }

  /** A batch that starts no later than a full one and reaches beyond it breaks a limit. */
  lemma CannotPass(limits: Limits, chunks: seq<Chunk>, a: nat, b: nat, c: nat, d: nat)
    requires a <= b <= c < d <= |chunks| && !Within(limits, chunks[b..c + 1])
    ensures !Within(limits, chunks[a..d])
  {
    SubrangeTokens(chunks, a, b, c + 1, d);
  }

  /** Greedy stays ahead: no division into batches within the limits gets further with as many batches. */
  lemma {:induction false} StaysAhead(limits: Limits, chunks: seq<Chunk>, batches: seq<seq<Chunk>>,
                                      other: seq<seq<Chunk>>)
    requires AreBatches(limits, chunks, batches) && Full(limits, batches)
    requires (forall b :: 0 <= b < |other| ==> Within(limits, other[b])) && Flat(other) <= chunks
    requires |other| <= |batches|
    ensures |Flat(other)| <= |Flat(batches[..|other|])|
  {
    var j := |other|;
    if 0 < j < |batches| {
      var before := other[..j - 1];
      assert Flat(before) <= Flat(other);
      StaysAhead(limits, chunks, batches, before);
      var a, d := |Flat(before)|, |Flat(other)|;
      var b, c := |Flat(batches[..j - 1])|, |Flat(batches[..j])|;
      assert other[j - 1] == chunks[a..d];
      GreedyRange(limits, chunks, batches, j - 1);
      if d > c {
        CannotPass(limits, chunks, a, b, c, d);
      }
    } else if j == |batches| {
      assert batches[..j] == batches;
    }
  }

  lemma BatchRange(batches: seq<seq<Chunk>>, j: nat)
    requires j < |batches|
    ensures var b, c := |Flat(batches[..j])|, |Flat(batches[..j + 1])|;
      c == b + |batches[j]| && c <= |Flat(batches)| && Flat(batches)[b..c] == batches[j]
  {
    FlatNext(batches[..j], batches[j]);
    assert batches[..j] + [batches[j]] == batches[..j + 1];
    FlatPrefix(batches, j + 1);
  }

  /** The chunks of a batch and the one after it, as a range. */
  lemma GreedyRange(limits: Limits, chunks: seq<Chunk>, batches: seq<seq<Chunk>>, j: nat)
    requires AreBatches(limits, chunks, batches) && Full(limits, batches) && j + 1 < |batches|
    ensures var b, c := |Flat(batches[..j])|, |Flat(batches[..j + 1])|;
      b <= c < |chunks| && !Within(limits, chunks[b..c + 1])
  {
    var b, c := |Flat(batches[..j])|, |Flat(batches[..j + 1])|;
    BatchRange(batches, j);
    BatchRange(batches, j + 1);
    var next := batches[j + 1];
    assert chunks[c..c + |next|] == next && next != [];
    assert chunks[b..c + 1] == batches[j] + [next[0]];
  }

  /** No division of the chunks into consecutive batches within the limits uses fewer batches. */
  lemma FewestBatches(limits: Limits, chunks: seq<Chunk>, batches: seq<seq<Chunk>>, other: seq<seq<Chunk>>)
    requires AreBatches(limits, chunks, batches) && Full(limits, batches)
    requires AreBatches(limits, chunks, other)
    ensures |batches| <= |other|
  {
    if |other| < |batches| {
      StaysAhead(limits, chunks, batches, other);
      var j := |other|;
      FlatNext(batches[..j], batches[j]);
      assert batches[..j] + [batches[j]] == batches[..j + 1];
      FlatPrefix(batches, j + 1);
    }
  }
}
