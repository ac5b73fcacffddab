/** Immutable embedding snapshots (src/ragbench/embeddings/repository.py) and the service that fills them batch by
    batch, stopping at any failure and resuming later (src/ragbench/embeddings/service.py). */
module EmbeddingRepository {
  import opened Results
  import opened EmbeddingBatches

  datatype Component = Finite(value: real) | NotFinite

  type Vector = seq<Component>

  /** `identity` stands for the metadata fields that only have to agree. The manifest hash is taken to identify
      the chunks up to order. `ready` says that the index state is "ready" and its name the expected one. */
  datatype Snapshot = Snapshot(
    id: string, identity: string, dimension: nat, expectedCount: nat, manifest: multiset<Chunk>, complete: bool,
      ready: bool)

  /** A snapshot without the fields that finalizing sets. */
  function Identity(snapshot: Snapshot): Snapshot {
    snapshot.(complete := false, ready := false)
  }

  /** What the repository's three dictionaries hold for one snapshot. */
  datatype Store = Store(snapshot: Snapshot, vectors: map<string, Vector>, artifacts: map<string, Chunk>)

  datatype RepositoryError =
    | UnknownSnapshot | ManifestMismatch | MetadataImmutable | ManifestImmutable | CompleteImmutable
    | WrongDimension | DifferentVector | NoArtifact | BadVector | NotExact

  // ----- the operations on one snapshot's store

  function Artifacts(chunks: seq<Chunk>): map<string, Chunk> {
    if chunks == [] then map[] else Artifacts(chunks[..|chunks| - 1])[chunks[|chunks| - 1].id := chunks[|chunks| - 1]]
  }

  function Created(existing: Option<Store>, snapshot: Snapshot, chunks: seq<Chunk>): Result<Store, RepositoryError> {
    if multiset(chunks) != snapshot.manifest then Err(ManifestMismatch)
    else
      match existing
      case None => Ok(Store(snapshot, map[], Artifacts(chunks)))
      case Some(store) =>
        if Identity(store.snapshot) != Identity(snapshot) then Err(MetadataImmutable)
        else if store.artifacts != Artifacts(chunks) then Err(ManifestImmutable)
        else Ok(store)
  }

  predicate GoodVector(v: Vector) {
    (forall c :: c in v ==> c.Finite?) && exists c :: c in v && c.Finite? && c.value != 0.0
  }

  /** Why one vector is refused. */
  function VectorRefusal(store: Store, id: string, v: Vector): Option<RepositoryError> {
    if |v| != store.snapshot.dimension then Some(WrongDimension)
    else if id in store.vectors && store.vectors[id] != v then Some(DifferentVector)
    else if id !in store.artifacts then Some(NoArtifact)
    else if !GoodVector(v) then Some(BadVector)
    else None
  }

  /** The store after the first `n` vectors of a batch, and the error that stopped it. */
  function Persisted(store: Store, batch: seq<(string, Vector)>, n: nat): (Store, Option<RepositoryError>)
    requires n <= |batch|
  {
    if n == 0 then (store, if store.snapshot.complete then Some(CompleteImmutable) else None)
    else
      var (before, error) := Persisted(store, batch, n - 1);
      var (id, v) := batch[n - 1];
      if error.Some? then (before, error)
      else if VectorRefusal(before, id, v).Some? then (before, VectorRefusal(before, id, v))
      else (before.(vectors := before.vectors[id := v]), None)
  }

  function Finalized(store: Store): Result<Store, RepositoryError> {
    if store.vectors.Keys != store.artifacts.Keys then Err(NotExact)
    else Ok(store.(snapshot := store.snapshot.(complete := true, ready := true)))
  }

  class MemoryEmbeddingRepository {
    var stores: map<string, Store>

    constructor ()
      ensures stores == map[]
    {
      stores := map[];
    }

    method CreateSnapshot(snapshot: Snapshot, chunks: seq<Chunk>) returns (r: Result<Snapshot, RepositoryError>)
      modifies this
      ensures var existing := if snapshot.id in old(stores) then Some(old(stores)[snapshot.id]) else None;
        var created := Created(existing, snapshot, chunks);
        && (r.Ok? <==> created.Ok?)
        && (r.Ok? ==> r.value == created.value.snapshot && stores == old(stores)[snapshot.id := created.value])
        && (r.Err? ==> r.error == created.error && stores == old(stores))
    {
      if multiset(chunks) != snapshot.manifest {
        return Err(ManifestMismatch);
      }
      if snapshot.id in stores {
        var store := stores[snapshot.id];
        if Identity(store.snapshot) != Identity(snapshot) {
          return Err(MetadataImmutable);
        }
        if store.artifacts != Artifacts(chunks) {
          return Err(ManifestImmutable);
        }
        assert stores == stores[snapshot.id := store];
        return Ok(store.snapshot);
      }
      stores := stores[snapshot.id := Store(snapshot, map[], Artifacts(chunks))];
      return Ok(snapshot);
    }

    method CompletedChunkIds(id: string) returns (r: Result<set<string>, RepositoryError>)
      ensures r == if id in stores then Ok(stores[id].vectors.Keys) else Err(UnknownSnapshot)
    {
      if id !in stores {
        return Err(UnknownSnapshot);
      }
      return Ok(stores[id].vectors.Keys);
    }

    /** Vectors before the one that is refused stay stored. */
    method PersistBatch(id: string, batch: seq<(string, Vector)>) returns (error: Option<RepositoryError>)
      modifies this
      ensures id !in old(stores) ==> error == Some(UnknownSnapshot) && stores == old(stores)
      ensures id in old(stores) ==>
        var (store, refused) := Persisted(old(stores)[id], batch, |batch|);
        error == refused && stores == old(stores)[id := store]
    {
      if id !in stores {
        return Some(UnknownSnapshot);
      }
      ghost var first := stores[id];
      assert stores == stores[id := first];
      if stores[id].snapshot.complete {
        PersistedStops(first, batch, 0, |batch|);
        return Some(CompleteImmutable);
      }
      for n := 0 to |batch|
        invariant id in stores && Persisted(first, batch, n) == (stores[id], None)
        invariant stores == old(stores)[id := stores[id]]
      {
        var (chunk, vector) := batch[n];
        var refused := VectorRefusal(stores[id], chunk, vector);
        if refused.Some? {
          PersistedStops(first, batch, n + 1, |batch|);
          return refused;
        }
        stores := stores[id := stores[id].(vectors := stores[id].vectors[chunk := vector])];
      }
      return None;
    }

    method FinalizeSnapshot(id: string) returns (r: Result<Snapshot, RepositoryError>)
      modifies this
      ensures id !in old(stores) ==> r == Err(UnknownSnapshot) && stores == old(stores)
      ensures id in old(stores) ==>
        var done := Finalized(old(stores)[id]);
        && (r.Ok? <==> done.Ok?)
        && (r.Ok? ==> r.value == done.value.snapshot && stores == old(stores)[id := done.value])
        && (r.Err? ==> r.error == NotExact && stores == old(stores))
    {
      if id !in stores {
        return Err(UnknownSnapshot);
      }
      var store := stores[id];
      if store.vectors.Keys != store.artifacts.Keys {
        return Err(NotExact);
      }
      stores := stores[id := store.(snapshot := store.snapshot.(complete := true, ready := true))];
      return Ok(stores[id].snapshot);
    }
  }

  lemma {:induction false} PersistedStops(store: Store, batch: seq<(string, Vector)>, k: nat, n: nat)
    requires k <= n <= |batch| && Persisted(store, batch, k).1.Some?
    ensures Persisted(store, batch, n) == Persisted(store, batch, k)
  {
    if k < n {
      PersistedStops(store, batch, k, n - 1);
    }
  }

  // ----- every history of one snapshot

  datatype Operation = Create(snapshot: Snapshot, chunks: seq<Chunk>) | Persist(batch: seq<(string, Vector)>) | Finalize

  /** What is stored after an operation; one that fails part way leaves what it stored so far. */
  function After(store: Option<Store>, op: Operation): Option<Store> {
    match op
    case Create(snapshot, chunks) =>
      var created := Created(store, snapshot, chunks);
      if created.Ok? then Some(created.value) else store
    case Persist(batch) =>
      if store.None? then None else Some(Persisted(store.value, batch, |batch|).0)
    case Finalize =>
      if store.None? then None
      else if Finalized(store.value).Ok? then Some(Finalized(store.value).value) else store
  }

  function History(ops: seq<Operation>): Option<Store> {
    if ops == [] then None else After(History(ops[..|ops| - 1]), ops[|ops| - 1])
  }

  /** Finalized again, a complete store gets a ready index and nothing else. */
  function Readied(store: Store): Store {
    store.(snapshot := store.snapshot.(ready := true))
  }

  /** `later` has every vector of `earlier` unchanged, and the same artifacts; a complete store is final. */
  predicate Extends(earlier: Store, later: Store) {
    && later.artifacts == earlier.artifacts
    && Identity(later.snapshot) == Identity(earlier.snapshot)
    && (forall id :: id in earlier.vectors ==> id in later.vectors && later.vectors[id] == earlier.vectors[id])
    && (earlier.snapshot.complete ==> later == earlier || later == Readied(earlier))
  }

  lemma {:induction false} PersistedExtends(store: Store, batch: seq<(string, Vector)>, n: nat)
    requires n <= |batch|
    ensures Extends(store, Persisted(store, batch, n).0)
    ensures store.snapshot.complete ==> Persisted(store, batch, n) == (store, Some(CompleteImmutable))
  {
    if n > 0 {
      PersistedExtends(store, batch, n - 1);
    }
  }

  /** Once created a snapshot keeps its artifacts and every stored vector, whatever is tried; and once it is
      complete nothing changes at all. */
  lemma {:induction false} HistoryExtends(before: seq<Operation>, ops: seq<Operation>)
    requires History(before).Some?
    ensures History(before + ops).Some? && Extends(History(before).value, History(before + ops).value)
  {
    if ops == [] {
      assert before + ops == before;
    } else {
      var shorter, last := ops[..|ops| - 1], ops[|ops| - 1];
      HistoryExtends(before, shorter);
      assert (before + ops)[..|before + ops| - 1] == before + shorter;
      var store := History(before + shorter).value;
      if last.Persist? {
        PersistedExtends(store, last.batch, |last.batch|);
      }
    }
  }

  /** Stored vectors are good vectors of registered chunks; a complete snapshot has one for every chunk. */
  predicate Sound(store: Store) {
    && (forall id :: id in store.vectors ==>
      id in store.artifacts && |store.vectors[id]| == store.snapshot.dimension && GoodVector(store.vectors[id]))
    && (store.snapshot.complete ==> store.vectors.Keys == store.artifacts.Keys)
  }

  lemma {:induction false} PersistedSound(store: Store, batch: seq<(string, Vector)>, n: nat)
    requires n <= |batch| && Sound(store)
    ensures Sound(Persisted(store, batch, n).0)
  {
    PersistedExtends(store, batch, n);
    if n > 0 {
      PersistedExtends(store, batch, n - 1);
      PersistedSound(store, batch, n - 1);
    }
  }

  // ----- exactly when a complete snapshot has all its vectors

  /** The operation that registers a snapshot: the first creation whose manifest is that of its chunks. */
  function Registration(ops: seq<Operation>): Option<Operation> {
    if ops == [] then None
    else
      var earlier, last := Registration(ops[..|ops| - 1]), ops[|ops| - 1];
      if earlier.None? && last.Create? && multiset(last.chunks) == last.snapshot.manifest then Some(last) else earlier
  }

  /** Complete without a single vector, although there are chunks. */
  predicate Hollow(store: Store) {
    store.snapshot.complete && store.vectors == map[] && store.artifacts != map[]
  }

  /** Registered from a plan that is already marked complete, with chunks. */
  predicate PlannedComplete(op: Operation) {
    op.Create? && op.snapshot.complete && op.chunks != []
  }

  predicate Shaped(registration: Operation, store: Store) {
    if PlannedComplete(registration) then Hollow(store) else Sound(store)
  }

  lemma HollowStays(store: Store, op: Operation)
    requires Hollow(store)
    ensures var after := After(Some(store), op); after.Some? && Hollow(after.value)
  {
    if op.Persist? {
      PersistedExtends(store, op.batch, |op.batch|);
    }
  }

  lemma SoundStays(store: Store, op: Operation)
    requires Sound(store)
    ensures var after := After(Some(store), op); after.Some? && Sound(after.value)
  {
    if op.Persist? {
      PersistedSound(store, op.batch, |op.batch|);
    }
  }

  lemma {:induction false} ArtifactsEmpty(chunks: seq<Chunk>)
    ensures Artifacts(chunks) == map[] <==> chunks == []
  {
    if chunks != [] {
      assert chunks[|chunks| - 1].id in Artifacts(chunks);
    }
  }

  lemma RegisteredHow(op: Operation)
    requires op.Create? && multiset(op.chunks) == op.snapshot.manifest
    ensures After(None, op).Some? && Shaped(op, After(None, op).value)
  {
    ArtifactsEmpty(op.chunks);
  }

  /** Over every history: a snapshot registered from a plan that was marked complete and has chunks is complete
      without vectors for good; every other one is sound, so that it has all its vectors when it is complete. */
  lemma {:induction false} HistoryShape(ops: seq<Operation>)
    ensures History(ops).Some? <==> Registration(ops).Some?
    ensures History(ops).Some? ==> Shaped(Registration(ops).value, History(ops).value)
  {
    if ops != [] {
      var shorter, last := ops[..|ops| - 1], ops[|ops| - 1];
      HistoryShape(shorter);
      if History(shorter).None? {
        if last.Create? && multiset(last.chunks) == last.snapshot.manifest {
          RegisteredHow(last);
        }
      } else if PlannedComplete(Registration(shorter).value) {
        HollowStays(History(shorter).value, last);
      } else {
        SoundStays(History(shorter).value, last);
      }
    }
  }

  /** After every history, "complete" means a vector for every chunk exactly unless the snapshot was
      registered from a plan that was marked complete and has chunks. */
  lemma HistorySoundIff(ops: seq<Operation>)
    requires History(ops).Some?
    ensures Registration(ops).Some?
    ensures Sound(History(ops).value) <==> !PlannedComplete(Registration(ops).value)
  {
    HistoryShape(ops);
  }

  lemma {:induction false} RegistrationStays(before: seq<Operation>, ops: seq<Operation>)
    requires Registration(before).Some?
    ensures Registration(before + ops) == Registration(before)
  {
    if ops == [] {
      assert before + ops == before;
    } else {
      RegistrationStays(before, ops[..|ops| - 1]);
      assert (before + ops)[..|before + ops| - 1] == before + ops[..|ops| - 1];
    }
  }

  /** Registering any chunks with a plan marked complete leaves them without vectors, whatever follows. */
  lemma CompletePlanSkipsVectors(snapshot: Snapshot, chunks: seq<Chunk>, ops: seq<Operation>)
    requires snapshot.complete && snapshot.manifest == multiset(chunks) && chunks != []
    ensures var store := History([Create(snapshot, chunks)] + ops);
      store.Some? && store.value.snapshot.complete && store.value.vectors == map[] && !Sound(store.value)
  {
    var first := [Create(snapshot, chunks)];
    assert first[..0] == [];
    RegistrationStays(first, ops);
    HistoryShape(first + ops);
  }
}
