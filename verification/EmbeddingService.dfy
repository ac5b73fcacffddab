/** Embedding the chunks of a snapshot (src/ragbench/embeddings/service.py): only chunks without a vector are
    sent, each answered batch is stored at once, and a failed call can be repeated. */
module EmbeddingService {
  import opened Lists
  import opened Results
  import opened Sorting
  import opened EmbeddingBatches
  import opened EmbeddingRepository

  datatype ServiceError =
    | WrongCount | DuplicateChunks | NeedsRebuild | Repository(error: RepositoryError)
    | TooLarge | RequestFailed | BadAnswer

  /** The provider's vectors for the k-th request, or None when the request fails. */
  type Provider = (nat, seq<Chunk>) -> Option<seq<Vector>>

  /** Division by the norm, in whatever arithmetic: a norm that overflows can leave only zeros. */
  type Normalizer = Vector -> Vector

  function Normalized(vectors: seq<Vector>, normalize: Normalizer): (scaled: seq<Vector>)
    ensures |scaled| == |vectors| && forall k :: 0 <= k < |vectors| ==> scaled[k] == normalize(vectors[k])
  {
    seq(|vectors|, k requires 0 <= k < |vectors| => normalize(vectors[k]))
  }

  /** Scaling keeps the number of components. */
  ghost predicate KeepsDimension(normalize: Normalizer) {
    forall v :: |normalize(v)| == |v|
  }

  function Missing(chunks: seq<Chunk>, done: set<string>): seq<Chunk> {
    if chunks == [] then []
    else
      var last := chunks[|chunks| - 1];
      Missing(chunks[..|chunks| - 1], done) + if last.id in done then [] else [last]
  }

  function Ids(chunks: seq<Chunk>): (ids: seq<string>)
    ensures |ids| == |chunks| && forall k :: 0 <= k < |chunks| ==> ids[k] == chunks[k].id
  {
    seq(|chunks|, k requires 0 <= k < |chunks| => chunks[k].id)
  }

  /** Ascending places, and all of them at which there is no vector. */
  ghost predicate AreMissing(chunks: seq<Chunk>, done: set<string>, at: seq<nat>) {
    && (forall k :: 0 <= k < |at| ==> at[k] < |chunks|)
    && (forall k, l :: 0 <= k < l < |at| ==> at[k] < at[l])
    && (forall i :: 0 <= i < |chunks| ==> (i in at <==> chunks[i].id !in done))
  }

  /** `picked` lists the elements at these places, in order. */
  ghost predicate ArePicked(chunks: seq<Chunk>, at: seq<nat>, picked: seq<Chunk>) {
    |picked| == |at| && forall k :: 0 <= k < |at| ==> at[k] < |chunks| && picked[k] == chunks[at[k]]
  }

  ghost predicate MissingAt(chunks: seq<Chunk>, done: set<string>, at: seq<nat>) {
    AreMissing(chunks, done, at) && ArePicked(chunks, at, Missing(chunks, done))
  }

  /** The missing chunks are those at these places, in order. */
  lemma {:induction false} MissingInOrder(chunks: seq<Chunk>, done: set<string>) returns (at: seq<nat>)
    ensures MissingAt(chunks, done, at)
  {
    if chunks == [] {
      at := [];
    } else {
      var before, c := chunks[..|chunks| - 1], chunks[|chunks| - 1];
      var shorter := MissingInOrder(before, done);
      at := if c.id in done then shorter else shorter + [|before|];
      MissingAtNext(before, c, done, shorter, at, chunks);
    }
  }

  lemma MissingAtNext(chunks: seq<Chunk>, c: Chunk, done: set<string>, at: seq<nat>, longer: seq<nat>, all: seq<Chunk>)
    requires MissingAt(chunks, done, at) && all == chunks + [c]
    requires longer == if c.id in done then at else at + [|chunks|]
    ensures MissingAt(all, done, longer)
  {
    AreMissingNext(chunks, c, done, at);
    PickedNext(chunks, c, at, Missing(chunks, done));
    assert all[..|all| - 1] == chunks;
  }

  lemma PickedNext(chunks: seq<Chunk>, c: Chunk, at: seq<nat>, picked: seq<Chunk>)
    requires ArePicked(chunks, at, picked)
    ensures ArePicked(chunks + [c], at, picked + []) && ArePicked(chunks + [c], at + [|chunks|], picked + [c])
  {
  }

  lemma AreMissingNext(chunks: seq<Chunk>, c: Chunk, done: set<string>, at: seq<nat>)
    requires AreMissing(chunks, done, at)
    ensures AreMissing(chunks + [c], done, if c.id in done then at else at + [|chunks|])
  {
    assert |chunks| !in at;
    forall i | 0 <= i < |chunks| ensures (chunks + [c])[i] == chunks[i] && (i in at + [|chunks|] <==> i in at) {
    }
  }

  /** Nothing is missing when every chunk has a vector. */
  lemma {:induction false} NothingMissing(chunks: seq<Chunk>, done: set<string>)
    requires IdSet(chunks) <= done
    ensures Missing(chunks, done) == []
  {
    if chunks != [] {
      var before, c := chunks[..|chunks| - 1], chunks[|chunks| - 1];
      assert forall d :: d in before ==> d in chunks;
      NothingMissing(before, done);
      assert c in chunks && c.id in IdSet(chunks);
    }
  }

  lemma {:induction false} MissingExact(chunks: seq<Chunk>, done: set<string>)
    ensures forall c :: c in Missing(chunks, done) <==> c in chunks && c.id !in done
  {
    if chunks != [] {
      MissingExact(chunks[..|chunks| - 1], done);
      assert chunks == chunks[..|chunks| - 1] + [chunks[|chunks| - 1]];
    }
  }

  ghost predicate DistinctIds(chunks: seq<Chunk>) {
    forall i, j :: 0 <= i < j < |chunks| ==> chunks[i].id != chunks[j].id
  }

  lemma {:induction false} MissingDistinct(chunks: seq<Chunk>, done: set<string>)
    requires DistinctIds(chunks)
    ensures DistinctIds(Missing(chunks, done))
  {
    if chunks != [] {
      var before, last := chunks[..|chunks| - 1], chunks[|chunks| - 1];
      MissingDistinct(before, done);
      MissingExact(before, done);
      var rest := Missing(before, done);
      forall i | 0 <= i < |rest| ensures rest[i].id != last.id {
        assert rest[i] in rest && rest[i] in before;
      }
    }
  }

  lemma {:induction false} ArtifactsExact(chunks: seq<Chunk>)
    ensures forall id :: id in Artifacts(chunks) <==> exists c :: c in chunks && c.id == id
  {
    if chunks != [] {
      ArtifactsExact(chunks[..|chunks| - 1]);
      assert chunks == chunks[..|chunks| - 1] + [chunks[|chunks| - 1]];
    }
  }

  predicate Valid(vectors: seq<Vector>, count: nat, dimension: nat) {
    |vectors| == count && forall v :: v in vectors ==> |v| == dimension && GoodVector(v)
  }

  function Pairs(batch: seq<Chunk>, vectors: seq<Vector>): (pairs: seq<(string, Vector)>)
    requires |vectors| == |batch|
    ensures |pairs| == |batch| && forall k :: 0 <= k < |batch| ==> pairs[k] == (batch[k].id, vectors[k])
  {
    seq(|batch|, k requires 0 <= k < |batch| => (batch[k].id, vectors[k]))
  }

  function IdSet(chunks: seq<Chunk>): set<string> {
    set c | c in chunks :: c.id
  }

  lemma IdSetNext(chunks: seq<Chunk>, n: nat)
    requires n < |chunks|
    ensures IdSet(chunks[..n + 1]) == IdSet(chunks[..n]) + {chunks[n].id}
  {
    assert chunks[..n + 1] == chunks[..n] + [chunks[n]];
  }

  lemma PersistOne(store: Store, batch: seq<(string, Vector)>, n: nat)
    requires n < |batch| && Persisted(store, batch, n).1.None?
    requires VectorRefusal(Persisted(store, batch, n).0, batch[n].0, batch[n].1).None?
    ensures var before := Persisted(store, batch, n).0;
      Persisted(store, batch, n + 1) == (before.(vectors := before.vectors[batch[n].0 := batch[n].1]), None)
  {
  }

  /** `after` has vectors for these chunks as well. */
  predicate Grown(store: Store, after: Store, chunks: seq<Chunk>) {
    && after.snapshot == store.snapshot && after.artifacts == store.artifacts
    && after.vectors.Keys == store.vectors.Keys + IdSet(chunks)
  }

  lemma GrownByNone(store: Store, batch: seq<Chunk>)
    ensures Grown(store, store, batch[..0])
  {
    assert IdSet(batch[..0]) == {};
  }

  lemma NotYetStored(batch: seq<Chunk>, n: nat)
    requires DistinctIds(batch) && n < |batch|
    ensures batch[n].id !in IdSet(batch[..n])
  {
  }

  lemma GrowsByOne(store: Store, before: Store, batch: seq<Chunk>, n: nat, v: Vector)
    requires n < |batch| && DistinctIds(batch) && Grown(store, before, batch[..n])
    requires batch[n].id in store.artifacts && batch[n].id !in store.vectors && |v| == store.snapshot.dimension
    ensures VectorRefusal(before, batch[n].id, v) == if GoodVector(v) then None else Some(BadVector)
    ensures Grown(store, before.(vectors := before.vectors[batch[n].id := v]), batch[..n + 1])
  {
    NotYetStored(batch, n);
    IdSetNext(batch, n);
  }

  predicate AllGood(vectors: seq<Vector>, n: nat)
    requires n <= |vectors|
  {
    forall k :: 0 <= k < n ==> GoodVector(vectors[k])
  }

  lemma PersistStops(store: Store, batch: seq<(string, Vector)>, n: nat)
    requires n < |batch| && Persisted(store, batch, n).1.Some?
    ensures Persisted(store, batch, n + 1) == Persisted(store, batch, n)
  {
  }

  lemma PersistRefuses(store: Store, batch: seq<(string, Vector)>, n: nat)
    requires n < |batch| && Persisted(store, batch, n).1.None?
    requires VectorRefusal(Persisted(store, batch, n).0, batch[n].0, batch[n].1) == Some(BadVector)
    ensures Persisted(store, batch, n + 1).1 == Some(BadVector)
  {
  }

  /** Vectors of the right dimension, one for each of these chunks, which are registered and have none. */
  ghost predicate ForNew(store: Store, batch: seq<Chunk>, vectors: seq<Vector>) {
    && !store.snapshot.complete && DistinctIds(batch) && |batch| == |vectors|
    && forall k :: 0 <= k < |batch| ==>
         |vectors[k]| == store.snapshot.dimension && batch[k].id in store.artifacts && batch[k].id !in store.vectors
  }

  /** The first `n` vectors are stored, if all of them are good; otherwise one was refused. */
  ghost predicate StoredTo(store: Store, batch: seq<Chunk>, vectors: seq<Vector>, n: nat)
    requires n <= |batch| == |vectors|
  {
    var (after, error) := Persisted(store, Pairs(batch, vectors), n);
    && error == (if AllGood(vectors, n) then None else Some(BadVector))
    && (AllGood(vectors, n) ==> Grown(store, after, batch[..n]))
  }

  /** Vectors of the right dimension for new chunks are stored completely exactly when every one of them is
      finite and not zero; otherwise the first one that is not is refused. */
  lemma {:induction false} PersistAll(store: Store, batch: seq<Chunk>, vectors: seq<Vector>, n: nat)
    requires n <= |batch| && ForNew(store, batch, vectors)
    ensures StoredTo(store, batch, vectors, n)
  {
    if n == 0 {
      GrownByNone(store, batch);
    } else {
      PersistAll(store, batch, vectors, n - 1);
      PersistNext(store, batch, vectors, n - 1);
    }
  }

  lemma PersistNext(store: Store, batch: seq<Chunk>, vectors: seq<Vector>, n: nat)
    requires n < |batch| && ForNew(store, batch, vectors) && StoredTo(store, batch, vectors, n)
    ensures StoredTo(store, batch, vectors, n + 1)
  {
    if AllGood(vectors, n) {
      GrowsByOne(store, Persisted(store, Pairs(batch, vectors), n).0, batch, n, vectors[n]);
      if GoodVector(vectors[n]) {
        PersistOne(store, Pairs(batch, vectors), n);
      } else {
        PersistRefuses(store, Pairs(batch, vectors), n);
      }
    } else {
      PersistStops(store, Pairs(batch, vectors), n);
    }
  }

  /** The first `n` chunks of the batch hold the vectors at their own places. */
  ghost predicate Holding(store: Store, batch: seq<Chunk>, vectors: seq<Vector>, n: nat)
    requires n <= |batch| == |vectors|
  {
    forall j :: 0 <= j < n ==> batch[j].id in store.vectors && store.vectors[batch[j].id] == vectors[j]
  }

  lemma {:induction false} PersistHolds(store: Store, batch: seq<Chunk>, vectors: seq<Vector>, n: nat)
    requires n <= |batch| && ForNew(store, batch, vectors) && AllGood(vectors, n)
    ensures Holding(Persisted(store, Pairs(batch, vectors), n).0, batch, vectors, n)
  {
    if n > 0 {
      PersistHolds(store, batch, vectors, n - 1);
      GoodStored(store, batch, vectors, n - 1);
      HoldsOneMore(Persisted(store, Pairs(batch, vectors), n - 1).0, batch, vectors, n - 1);
    }
  }

  lemma GoodStored(store: Store, batch: seq<Chunk>, vectors: seq<Vector>, n: nat)
    requires n < |batch| && ForNew(store, batch, vectors) && AllGood(vectors, n + 1)
    ensures var before := Persisted(store, Pairs(batch, vectors), n).0;
      Persisted(store, Pairs(batch, vectors), n + 1).0 == before.(vectors := before.vectors[batch[n].id := vectors[n]])
  {
    PersistAll(store, batch, vectors, n);
    GrowsByOne(store, Persisted(store, Pairs(batch, vectors), n).0, batch, n, vectors[n]);
    PersistOne(store, Pairs(batch, vectors), n);
  }

  lemma HoldsOneMore(before: Store, batch: seq<Chunk>, vectors: seq<Vector>, n: nat)
    requires n < |batch| == |vectors| && DistinctIds(batch) && Holding(before, batch, vectors, n)
    ensures Holding(before.(vectors := before.vectors[batch[n].id := vectors[n]]), batch, vectors, n + 1)
  {
  }

  /** The answer came, and each chunk of its request holds the scaled vector given at its own place. */
  ghost predicate Given(store: Store, batch: seq<Chunk>, answer: Option<seq<Vector>>, normalize: Normalizer) {
    && answer.Some? && |answer.value| == |batch|
    && forall j :: 0 <= j < |batch| ==>
         batch[j].id in store.vectors && store.vectors[batch[j].id] == normalize(answer.value[j])
  }

  lemma GivenStays(store: Store, after: Store, batch: seq<Chunk>, answer: Option<seq<Vector>>, normalize: Normalizer)
    requires Extends(store, after) && Given(store, batch, answer, normalize)
    ensures Given(after, batch, answer, normalize)
  {
  }

  /** The first `n` requests were answered and stored. */
  ghost predicate AllGiven(store: Store, requests: seq<seq<Chunk>>, n: nat, provider: Provider, normalize: Normalizer)
    requires n <= |requests|
  {
    forall k :: 0 <= k < n ==> Given(store, requests[k], provider(k, requests[k]), normalize)
  }

  /** After one more request. */
  lemma GivenNext(store: Store, after: Store, requests: seq<seq<Chunk>>, k: nat, ok: bool, provider: Provider,
                  normalize: Normalizer)
    requires k < |requests| && Extends(store, after) && AllGiven(store, requests, k, provider, normalize)
    requires ok ==> Given(after, requests[k], provider(k, requests[k]), normalize)
    ensures AllGiven(after, requests[..k + 1], k, provider, normalize)
    ensures ok ==> AllGiven(after, requests, k + 1, provider, normalize)
  {
    AllGivenStays(store, after, requests, k, provider, normalize);
  }

  lemma AllGivenStays(store: Store, after: Store, requests: seq<seq<Chunk>>, n: nat, provider: Provider,
                      normalize: Normalizer)
    requires n <= |requests| && Extends(store, after) && AllGiven(store, requests, n, provider, normalize)
    ensures AllGiven(after, requests, n, provider, normalize)
  {
    forall k | 0 <= k < n ensures Given(after, requests[k], provider(k, requests[k]), normalize) {
      GivenStays(store, after, requests[k], provider(k, requests[k]), normalize);
    }
  }

  /** Requests go out for missing chunks only, in order. */
  ghost predicate OnlyMissing(sent: seq<seq<Chunk>>, chunks: seq<Chunk>, done: set<string>) {
    Flat(sent) <= Missing(chunks, done)
  }

  function DoneBefore(stores: map<string, Store>, id: string): set<string> {
    if id in stores then stores[id].vectors.Keys else {}
  }

  /** Every request but the last was answered and stored; after a success the last one too, and every chunk
      without a vector was sent. */
  ghost predicate Delivered(store: Store, chunks: seq<Chunk>, done: set<string>, sent: seq<seq<Chunk>>, success: bool,
                            provider: Provider, normalize: Normalizer) {
    && (sent != [] ==> AllGiven(store, sent, |sent| - 1, provider, normalize))
    && (success ==> Flat(sent) == Missing(chunks, done) && AllGiven(store, sent, |sent|, provider, normalize))
  }

  /** The batches left to send; each is new to the store. */
  ghost predicate Pending(store: Store, chunks: seq<Chunk>, done: set<string>, batches: seq<seq<Chunk>>, k: nat) {
    && k <= |batches| && !store.snapshot.complete && Flat(batches) == Missing(chunks, done)
    && store.artifacts == Artifacts(chunks)
    && store.vectors.Keys == done + IdSet(Flat(batches[..k]))
  }

  lemma BatchSlice(missing: seq<Chunk>, batches: seq<seq<Chunk>>, k: nat)
    requires Flat(batches) == missing && k < |batches|
    ensures var b := |Flat(batches[..k])|;
      b + |batches[k]| <= |missing| && batches[k] == missing[b..b + |batches[k]|] && Flat(batches[..k]) == missing[..b]
  {
    BatchRange(batches, k);
    FlatPrefix(batches, k);
  }

  lemma SlicesApart(chunks: seq<Chunk>, b: nat, e: nat)
    requires DistinctIds(chunks) && b <= e <= |chunks|
    ensures DistinctIds(chunks[b..e]) && forall c :: c in chunks[b..e] ==> c in chunks && c.id !in IdSet(chunks[..b])
  {
    forall c | c in chunks[b..e] ensures c in chunks && c.id !in IdSet(chunks[..b]) {
      var i :| 0 <= i < e - b && chunks[b..e][i] == c;
      assert chunks[b + i] == c;
      forall d | d in chunks[..b] ensures d.id != c.id {
        var j :| 0 <= j < b && chunks[..b][j] == d;
        assert chunks[j] == d;
      }
    }
  }

  lemma IdSetConcat(a: seq<Chunk>, b: seq<Chunk>)
    ensures IdSet(a + b) == IdSet(a) + IdSet(b)
  {
    assert forall c :: c in a + b <==> c in a || c in b;
  }

  lemma BatchIds(batches: seq<seq<Chunk>>, k: nat)
    requires k < |batches|
    ensures IdSet(Flat(batches[..k + 1])) == IdSet(Flat(batches[..k])) + IdSet(batches[k])
  {
    assert batches[..k] + [batches[k]] == batches[..k + 1];
    FlatNext(batches[..k], batches[k]);
    IdSetConcat(Flat(batches[..k]), batches[k]);
  }

  /** A batch not yet sent holds registered chunks without vectors. */
  lemma BatchIsNew(store: Store, chunks: seq<Chunk>, done: set<string>, batches: seq<seq<Chunk>>, k: nat)
    requires DistinctIds(chunks) && Pending(store, chunks, done, batches, k) && k < |batches|
    ensures DistinctIds(batches[k]) && forall c :: c in batches[k] ==> c.id in store.artifacts && c.id !in store.vectors
  {
    var missing := Missing(chunks, done);
    MissingDistinct(chunks, done);
    BatchSlice(missing, batches, k);
    SlicesApart(missing, |Flat(batches[..k])|, |Flat(batches[..k])| + |batches[k]|);
    MissingExact(chunks, done);
    ArtifactsExact(chunks);
  }

  lemma PendingAfter(store: Store, after: Store, chunks: seq<Chunk>, done: set<string>, batches: seq<seq<Chunk>>,
                     k: nat)
    requires Pending(store, chunks, done, batches, k) && k < |batches| && Grown(store, after, batches[k])
    ensures Pending(after, chunks, done, batches, k + 1)
  {
    BatchIds(batches, k);
  }

  /** After an answered batch: either all of it is stored, or a scaled vector was refused. */
  lemma PendingNext(store: Store, chunks: seq<Chunk>, done: set<string>, batches: seq<seq<Chunk>>, k: nat,
                    vectors: seq<Vector>)
    requires DistinctIds(chunks) && Pending(store, chunks, done, batches, k) && k < |batches|
    requires |vectors| == |batches[k]| && forall j :: 0 <= j < |vectors| ==> |vectors[j]| == store.snapshot.dimension
    ensures var (after, error) := Persisted(store, Pairs(batches[k], vectors), |batches[k]|);
      && error == (if AllGood(vectors, |vectors|) then None else Some(BadVector))
      && (error.None? ==> Pending(after, chunks, done, batches, k + 1))
      && after.snapshot == store.snapshot && Extends(store, after)
  {
    var batch := batches[k];
    BatchIsNew(store, chunks, done, batches, k);
    assert forall j | 0 <= j < |batch| :: batch[j] in batch;
    PersistAll(store, batch, vectors, |batch|);
    assert batch[..|batch|] == batch;
    if AllGood(vectors, |vectors|) {
      PendingAfter(store, Persisted(store, Pairs(batch, vectors), |batch|).0, chunks, done, batches, k);
    }
    PersistedExtends(store, Pairs(batch, vectors), |batch|);
    PersistedSnapshot(store, Pairs(batch, vectors), |batch|);
  }

  lemma {:induction false} PersistedSnapshot(store: Store, batch: seq<(string, Vector)>, n: nat)
    requires n <= |batch|
    ensures Persisted(store, batch, n).0.snapshot == store.snapshot
  {
    if n > 0 {
      PersistedSnapshot(store, batch, n - 1);
    }
  }

  /** When every batch was answered the store can be finalized. */
  lemma AllPersisted(store: Store, chunks: seq<Chunk>, done: set<string>, batches: seq<seq<Chunk>>)
    requires Pending(store, chunks, done, batches, |batches|) && forall id :: id in done ==> id in store.artifacts
    ensures Finalized(store).Ok? && store.vectors.Keys == store.artifacts.Keys == IdSet(chunks)
  {
    assert batches[..|batches|] == batches;
    MissingExact(chunks, done);
    ArtifactsExact(chunks);
    forall id ensures id in store.vectors <==> id in store.artifacts {
      if id in store.artifacts && id !in done {
        var c :| c in chunks && c.id == id;
        assert c in Missing(chunks, done);
      }
    }
    assert store.artifacts.Keys == IdSet(chunks);
  }

  /** One request and, when it is answered validly, its scaled vectors stored. */
  method SendOne(repository: MemoryEmbeddingRepository, id: string, ghost chunks: seq<Chunk>, ghost done: set<string>,
                 batches: seq<seq<Chunk>>, k: nat, provider: Provider, normalize: Normalizer)
    returns (error: Option<ServiceError>)
    requires DistinctIds(chunks) && id in repository.stores && k < |batches| && KeepsDimension(normalize)
    requires Pending(repository.stores[id], chunks, done, batches, k)
    modifies repository
    ensures id in repository.stores && repository.stores == old(repository.stores)[id := repository.stores[id]]
    ensures Extends(old(repository.stores)[id], repository.stores[id])
    ensures old(repository.stores)[id].vectors.Keys <= repository.stores[id].vectors.Keys
    ensures Sound(old(repository.stores)[id]) ==> Sound(repository.stores[id])
    ensures error.None? ==> Pending(repository.stores[id], chunks, done, batches, k + 1)
    ensures error.None? ==> Given(repository.stores[id], batches[k], provider(k, batches[k]), normalize)
    ensures error.Some? ==> error.value in {RequestFailed, BadAnswer, Repository(BadVector)}
  {
    ghost var store := repository.stores[id];
    assert repository.stores == repository.stores[id := store];
    var answer := provider(k, batches[k]);
    if answer.None? {
      return Some(RequestFailed);
    }
    if !Valid(answer.value, |batches[k]|, repository.stores[id].snapshot.dimension) {
      return Some(BadAnswer);
    }
    var vectors := Normalized(answer.value, normalize);
    assert forall j | 0 <= j < |vectors| :: answer.value[j] in answer.value;
    PendingNext(store, chunks, done, batches, k, vectors);
    SoundAfter(store, Pairs(batches[k], vectors));
    AnswerGiven(store, chunks, done, batches, k, answer, normalize);
    var refused := repository.PersistBatch(id, Pairs(batches[k], vectors));
    return if refused.Some? then Some(Repository(refused.value)) else None;
  }

  lemma AnswerGiven(store: Store, chunks: seq<Chunk>, done: set<string>, batches: seq<seq<Chunk>>, k: nat,
                    answer: Option<seq<Vector>>, normalize: Normalizer)
    requires DistinctIds(chunks) && Pending(store, chunks, done, batches, k) && k < |batches|
    requires KeepsDimension(normalize)
    requires answer.Some? && Valid(answer.value, |batches[k]|, store.snapshot.dimension)
    ensures var (after, error) := Persisted(store, Pairs(batches[k], Normalized(answer.value, normalize)),
      |batches[k]|);
      error.None? ==> Given(after, batches[k], answer, normalize)
  {
    var batch, vectors := batches[k], Normalized(answer.value, normalize);
    BatchIsNew(store, chunks, done, batches, k);
    assert forall j | 0 <= j < |batch| :: batch[j] in batch && answer.value[j] in answer.value;
    PersistAll(store, batch, vectors, |batch|);
    if AllGood(vectors, |batch|) {
      PersistHolds(store, batch, vectors, |batch|);
    }
  }

  lemma SoundAfter(store: Store, batch: seq<(string, Vector)>)
    ensures Sound(store) ==> Sound(Persisted(store, batch, |batch|).0)
  {
    if Sound(store) {
      PersistedSound(store, batch, |batch|);
    }
  }

  /** Sends the batches one after the other, storing each answer before the next request. */
  method SendAll(repository: MemoryEmbeddingRepository, id: string, ghost chunks: seq<Chunk>, ghost done: set<string>,
                 batches: seq<seq<Chunk>>, provider: Provider, normalize: Normalizer)
    returns (r: Result<Snapshot, ServiceError>, ghost sent: seq<seq<Chunk>>)
    requires DistinctIds(chunks) && id in repository.stores && KeepsDimension(normalize) && Sound(repository.stores[id])
    requires Pending(repository.stores[id], chunks, done, batches, 0)
    modifies repository
    ensures sent <= batches && id in repository.stores
    ensures sent != [] ==> AllGiven(repository.stores[id], sent, |sent| - 1, provider, normalize)
    ensures r.Ok? ==> sent == batches && AllGiven(repository.stores[id], sent, |sent|, provider, normalize)
    ensures repository.stores == old(repository.stores)[id := repository.stores[id]]
    ensures Extends(old(repository.stores)[id], repository.stores[id]) && Sound(repository.stores[id])
    ensures sent != [] ==> IdSet(Flat(sent[..|sent| - 1])) <= repository.stores[id].vectors.Keys
    ensures r.Ok? ==>
      IsComplete(repository.stores[id], chunks) && r.value == repository.stores[id].snapshot && r.value.ready
    ensures r.Err? ==> r.error in {RequestFailed, BadAnswer, Repository(BadVector)}
  {
    sent := [];
    ghost var first := repository.stores[id];
    assert repository.stores == repository.stores[id := first];
    StoredDone(first, chunks, done, batches);
    for k := 0 to |batches|
      invariant sent == batches[..k] && id in repository.stores
      invariant repository.stores == old(repository.stores)[id := repository.stores[id]]
      invariant Progress(first, repository.stores[id], chunks, done, batches, k)
      invariant AllGiven(repository.stores[id], batches, k, provider, normalize)
    {
      ghost var store := repository.stores[id];
      sent := batches[..k + 1];
      assert sent[..|sent| - 1] == batches[..k];
      var error := SendOne(repository, id, chunks, done, batches, k, provider, normalize);
      ProgressOn(first, store, repository.stores[id], chunks, done, batches, k, error.None?);
      GivenNext(store, repository.stores[id], batches, k, error.None?, provider, normalize);
      if error.Some? {
        return Err(error.value), sent;
      }
    }
    AllDone(first, repository.stores[id], chunks, done, batches, provider, normalize);
    var finalized := repository.FinalizeSnapshot(id);
    return Ok(finalized.value), sent;
  }

  /** Every batch was answered: the store can be finalized, and keeps all that was stored. */
  lemma AllDone(first: Store, store: Store, chunks: seq<Chunk>, done: set<string>, batches: seq<seq<Chunk>>,
                provider: Provider, normalize: Normalizer)
    requires Progress(first, store, chunks, done, batches, |batches|)
    requires AllGiven(store, batches, |batches|, provider, normalize)
    requires forall id :: id in done ==> id in store.artifacts
    ensures Finalized(store).Ok? && batches[..|batches|] == batches
    ensures var after := Finalized(store).value;
      && Extends(first, after) && Sound(after) && IsComplete(after, chunks) && after.snapshot.ready
      && AllGiven(after, batches, |batches|, provider, normalize)
      && (batches != [] ==> IdSet(Flat(batches[..|batches| - 1])) <= after.vectors.Keys)
  {
    AllPersisted(store, chunks, done, batches);
    FinalizedSound(store);
    ExtendsOn(first, store, Finalized(store).value);
    AllGivenStays(store, Finalized(store).value, batches, |batches|, provider, normalize);
    assert batches[..|batches|] == batches;
    if batches != [] {
      BatchIds(batches, |batches| - 1);
    }
  }

  lemma FinalizedSound(store: Store)
    requires Sound(store) && Finalized(store).Ok? && !store.snapshot.complete
    ensures Sound(Finalized(store).value) && Extends(store, Finalized(store).value)
  {
  }

  /** From `first`, the first `k` batches were stored. */
  ghost predicate Progress(first: Store, store: Store, chunks: seq<Chunk>, done: set<string>, batches: seq<seq<Chunk>>,
                           k: nat) {
    Extends(first, store) && Sound(store) && Pending(store, chunks, done, batches, k)
  }

  lemma ProgressOn(first: Store, store: Store, after: Store, chunks: seq<Chunk>, done: set<string>,
                   batches: seq<seq<Chunk>>, k: nat, ok: bool)
    requires Progress(first, store, chunks, done, batches, k) && Extends(store, after) && Sound(after)
    requires ok ==> Pending(after, chunks, done, batches, k + 1)
    ensures Extends(first, after) && (ok ==> Progress(first, after, chunks, done, batches, k + 1))
  {
    ExtendsOn(first, store, after);
  }

  lemma StoredDone(store: Store, chunks: seq<Chunk>, done: set<string>, batches: seq<seq<Chunk>>)
    requires Sound(store) && Pending(store, chunks, done, batches, 0)
    ensures forall id :: id in done ==> id in store.artifacts
  {
  }

  lemma ExtendsOn(a: Store, b: Store, c: Store)
    requires Extends(a, b) && Extends(b, c)
    ensures Extends(a, c)
  {
  }

  /** A vector for every chunk, and final. */
  predicate IsComplete(store: Store, chunks: seq<Chunk>) {
    store.snapshot.complete && store.vectors.Keys == store.artifacts.Keys == IdSet(chunks)
  }

  /** Every store has the shape that histories give it. */
  ghost predicate Shapely(stores: map<string, Store>) {
    forall id :: id in stores ==> Sound(stores[id]) || Hollow(stores[id])
  }

  /** Every stored vector is still there, unchanged. */
  ghost predicate AllExtend(before: map<string, Store>, after: map<string, Store>) {
    forall id :: id in before ==> id in after && Extends(before[id], after[id])
  }

  lemma OneExtended(before: map<string, Store>, after: map<string, Store>, id: string)
    requires Shapely(before) && id in after && after == before[id := after[id]]
    requires Sound(after[id]) || Hollow(after[id])
    requires id in before ==> Extends(before[id], after[id])
    ensures Shapely(after) && AllExtend(before, after)
  {
  }

  /** The snapshot is already known as complete without vectors, or the plan makes it so. */
  predicate HollowPlan(stores: map<string, Store>, snapshot: Snapshot, chunks: seq<Chunk>) {
    if snapshot.id in stores then Hollow(stores[snapshot.id]) else snapshot.complete && chunks != []
  }

  /** Checks the chunks and registers the snapshot, or finds it registered. */
  method Register(repository: MemoryEmbeddingRepository, snapshot: Snapshot, chunks: seq<Chunk>)
    returns (r: Result<Snapshot, ServiceError>)
    requires Shapely(repository.stores)
    modifies repository
    ensures r.Err? ==> repository.stores == old(repository.stores)
    ensures r.Ok? ==>
      && DistinctIds(chunks) && |chunks| == snapshot.expectedCount && snapshot.id in repository.stores
      && repository.stores == old(repository.stores)[snapshot.id := repository.stores[snapshot.id]]
      && r.value == repository.stores[snapshot.id].snapshot
      && repository.stores[snapshot.id].artifacts == Artifacts(chunks)
      && repository.stores[snapshot.id].vectors.Keys == DoneBefore(old(repository.stores), snapshot.id)
      && (snapshot.id in old(repository.stores) ==> repository.stores == old(repository.stores))
      && (if HollowPlan(old(repository.stores), snapshot, chunks) then Hollow(repository.stores[snapshot.id])
          else Sound(repository.stores[snapshot.id]))
  {
    if |chunks| != snapshot.expectedCount {
      return Err(WrongCount);
    }
    MemberCount(Ids(chunks));
    if |AsSet(Ids(chunks))| != |chunks| {
      return Err(DuplicateChunks);
    }
    assert DistinctIds(chunks) by {
      assert forall i, j | 0 <= i < j < |chunks| :: Ids(chunks)[i] != Ids(chunks)[j];
    }
    if snapshot.id in repository.stores && repository.stores[snapshot.id].snapshot.complete &&
      !repository.stores[snapshot.id].snapshot.ready {
      return Err(NeedsRebuild);
    }
    ArtifactsEmpty(chunks);
    var stored := repository.CreateSnapshot(snapshot, chunks);
    if stored.Err? {
      return Err(Repository(stored.error));
    }
    assert snapshot.id in old(repository.stores) ==> repository.stores == old(repository.stores);
    return Ok(stored.value);
  }

  /** Embeds what is missing. `sent` lists the requests made. Whatever happens, vectors stored before stay as they
      are, only chunks without one are sent, and all answered batches are stored. On success every chunk has a
      vector, exactly unless the snapshot was known, or planned, as complete without any. */
  method EmbedChunks(repository: MemoryEmbeddingRepository, limits: Limits, snapshot: Snapshot, chunks: seq<Chunk>,
                     provider: Provider, normalize: Normalizer)
    returns (r: Result<Snapshot, ServiceError>, ghost sent: seq<seq<Chunk>>)
    requires limits.items > 0 && limits.tokens > 0 && KeepsDimension(normalize)
    requires Shapely(repository.stores)
    modifies repository
    ensures Shapely(repository.stores) && AllExtend(old(repository.stores), repository.stores)
    ensures OnlyMissing(sent, chunks, DoneBefore(old(repository.stores), snapshot.id))
    ensures forall b :: 0 <= b < |sent| ==> Within(limits, sent[b])
    ensures sent != [] ==>
      && snapshot.id in repository.stores
      && IdSet(Flat(sent[..|sent| - 1])) <= repository.stores[snapshot.id].vectors.Keys
    ensures snapshot.id in repository.stores ==>
      Delivered(repository.stores[snapshot.id], chunks, DoneBefore(old(repository.stores), snapshot.id), sent,
                r.Ok? && !HollowPlan(old(repository.stores), snapshot, chunks), provider, normalize)
    ensures r.Ok? ==>
      && snapshot.id in repository.stores && r.value == repository.stores[snapshot.id].snapshot
      && r.value.complete && r.value.ready
      && (IsComplete(repository.stores[snapshot.id], chunks) <==> !HollowPlan(old(repository.stores), snapshot, chunks))
  {
    sent := [];
    var registered := Register(repository, snapshot, chunks);
    if registered.Err? {
      return Err(registered.error), sent;
    }
    var id := snapshot.id;
    ArtifactsAreIds(chunks);
    OneExtended(old(repository.stores), repository.stores, id);
    if registered.value.complete {
      if Sound(repository.stores[id]) {
        NothingMissing(chunks, repository.stores[id].vectors.Keys);
      }
      return if registered.value.ready then Ok(registered.value) else Err(NeedsRebuild), sent;
    }
    r, sent := EmbedMissing(repository, limits, id, chunks, provider, normalize);
    OneExtended(old(repository.stores), repository.stores, id);
  }

  /** Sends the chunks of a registered snapshot that have no vector yet. */
  method EmbedMissing(repository: MemoryEmbeddingRepository, limits: Limits, id: string, chunks: seq<Chunk>,
                      provider: Provider, normalize: Normalizer)
    returns (r: Result<Snapshot, ServiceError>, ghost sent: seq<seq<Chunk>>)
    requires limits.items > 0 && limits.tokens > 0 && KeepsDimension(normalize) && DistinctIds(chunks)
    requires id in repository.stores && Sound(repository.stores[id]) && !repository.stores[id].snapshot.complete
    requires repository.stores[id].artifacts == Artifacts(chunks)
    modifies repository
    ensures id in repository.stores && repository.stores == old(repository.stores)[id := repository.stores[id]]
    ensures Extends(old(repository.stores)[id], repository.stores[id]) && Sound(repository.stores[id])
    ensures OnlyMissing(sent, chunks, old(repository.stores)[id].vectors.Keys)
    ensures forall b :: 0 <= b < |sent| ==> Within(limits, sent[b])
    ensures sent != [] ==> IdSet(Flat(sent[..|sent| - 1])) <= repository.stores[id].vectors.Keys
    ensures Delivered(repository.stores[id], chunks, old(repository.stores)[id].vectors.Keys, sent, r.Ok?, provider,
      normalize)
    ensures r.Ok? ==>
      IsComplete(repository.stores[id], chunks) && r.value == repository.stores[id].snapshot && r.value.ready
  {
    sent := [];
    var completed := repository.CompletedChunkIds(id);
    var done := completed.value;
    var batched := Batches(limits, Missing(chunks, done));
    if batched.Err? {
      assert repository.stores == repository.stores[id := repository.stores[id]];
      return Err(TooLarge), sent;
    }
    var batches := batched.value;
    assert batches[..0] == [] && IdSet([]) == {};
    r, sent := SendAll(repository, id, chunks, done, batches, provider, normalize);
    SentPrefix(batches, sent);
  }

  lemma ArtifactsAreIds(chunks: seq<Chunk>)
    ensures Artifacts(chunks).Keys == IdSet(chunks)
  {
    ArtifactsExact(chunks);
  }

  lemma SentPrefix(batches: seq<seq<Chunk>>, sent: seq<seq<Chunk>>)
    requires sent <= batches
    ensures Flat(sent) <= Flat(batches)
  {
    FlatPrefix(batches, |sent|);
    assert batches[..|sent|] == sent;
  }
}
