/**
 The commit pipeline as a state machine: the shared cells, the committer's pending
 cells, and the three writers (live cache, live storage, execution cache).  Each
 function is what one call of the source does to that state; the classes in
 Writers.dfy and Committer.dfy are proved to compute these functions.
 */
module Pipelines {
  import opened Cells
  import opened Seqs
  import opened Batches
  import opened Finalization

  type Bytes(==, !new)

  // The storage codec: keys are kept, values are encoded.
  datatype Codec = Codec(encode: (string, Value) -> Bytes, decode: (string, Bytes) -> Option<Value>)

  datatype Config = Config(apply: Apply, codec: Codec)

  // ------------------------------------------------------------ live cache writer

  datatype CacheState = CacheState(
    importBuffer: seq<StateCell>,
    buffer: seq<StateCell>,
    queue: seq<seq<StateCell>>,
    cache: map<string, Value>)

  function CacheImport(w: CacheState, batch: seq<StateCell>): CacheState {
    w.(importBuffer := w.importBuffer + Filter(Persisted(), batch))
  }

  // The sync phase: what was imported becomes the current generation.
  function CacheReset(w: CacheState): CacheState {
    w.(buffer := w.importBuffer, importBuffer := [])
  }

  // The async phase: the current generation, flagged cells dropped, is queued and the
  // indexer is replaced by a new one.
  function CacheEnqueue(w: CacheState, h: Heap): CacheState {
    w.(queue := w.queue + [Filter(Unflagged(h), w.buffer)], buffer := [], importBuffer := [])
  }

  // The block commit: the cell values are read now, not when the cells were queued.
  function CacheCommit(w: CacheState, h: Heap, evicted: set<string>): CacheState {
    w.(cache := BatchApply(w.cache, EntriesOf(h, Flatten(w.queue))) - evicted, queue := [])
  }

  // ------------------------------------------------------------ live storage writer

  // One queued generation: keys and encoded values side by side; nil is a deletion.
  datatype StorageBatch = StorageBatch(keys: seq<string>, encoded: seq<Option<Bytes>>)

  datatype StorageState = StorageState(
    importBuffer: seq<StateCell>,
    buffer: seq<StateCell>,
    queue: seq<StorageBatch>,
    store: map<string, Bytes>)

  function StorageImport(w: StorageState, h: Heap, batch: seq<StateCell>): StorageState {
    w.(importBuffer := w.importBuffer + Filter(Persisted(), Filter(Unflagged(h), batch)))
  }

  function StorageReset(w: StorageState): StorageState {
    w.(buffer := w.importBuffer, importBuffer := [])
  }

  function EncodeVal(codec: Codec, k: string, v: Val): Option<Bytes> {
    if v.Some? then Some(codec.encode(k, v.value)) else None
  }

  function EncodedOf(codec: Codec, es: seq<Entry<Value>>): (r: seq<Option<Bytes>>)
    ensures |r| == |es|
  {
    seq(|es|, i requires 0 <= i < |es| => EncodeVal(codec, es[i].key, es[i].val))
  }

  // The values are read and encoded when the generation is queued.
  function StorageEnqueue(w: StorageState, h: Heap, codec: Codec): StorageState {
    var es := EntriesOf(h, w.buffer);
    w.(queue := w.queue + [StorageBatch(KeysOf(es), EncodedOf(codec, es))], buffer := [], importBuffer := [])
  }

  function MergedKeys(queue: seq<StorageBatch>): seq<string> {
    if queue == [] then [] else queue[0].keys + MergedKeys(queue[1..])
  }

  function MergedEncoded(queue: seq<StorageBatch>): seq<Option<Bytes>> {
    if queue == [] then [] else queue[0].encoded + MergedEncoded(queue[1..])
  }

  ghost predicate Aligned(queue: seq<StorageBatch>) {
    forall i :: 0 <= i < |queue| ==> |queue[i].keys| == |queue[i].encoded|
  }

  lemma {:induction false} MergedAligned(queue: seq<StorageBatch>)
    requires Aligned(queue)
    ensures |MergedKeys(queue)| == |MergedEncoded(queue)|
  {
    if queue != [] {
      MergedAligned(queue[1..]);
    }
  }

  function StorageCommit(w: StorageState): StorageState
    requires Aligned(w.queue)
  {
    MergedAligned(w.queue);
    w.(store := BatchApply(w.store, Zip(MergedKeys(w.queue), MergedEncoded(w.queue))), queue := [])
  }

  // ------------------------------------------------------------ execution cache writer

  datatype ExecState = ExecState(buffer: seq<StateCell>, local: map<string, StateCell>)

  function ExecImport(w: ExecState, batch: seq<StateCell>): ExecState {
    w.(buffer := w.buffer + batch)
  }

  // The buffer is not cleared: the whole block so far is replayed into the local cells.
  function ExecPrecommit(w: ExecState, h: Heap): ExecState {
    w.(buffer := Filter(Unflagged(h), w.buffer), local := Replay(w.local, CellEntriesOf(h, w.buffer)))
  }

  function ExecCommit(w: ExecState): ExecState {
    ExecState([], map[])
  }

  // ------------------------------------------------------------ the committer

  datatype Pipeline = Pipeline(
    heap: Heap,
    pending: seq<StateCell>,
    cache: CacheState,
    storage: StorageState,
    exec: ExecState)

  datatype Op =
    | Import(batch: seq<StateCell>, init: Heap)
    | Finalize(whitelist: seq<nat>)
    | SyncPrecommit
    | AsyncPrecommit
    | SyncCommit(evict: set<string>)
    | AsyncCommit

  ghost predicate Stepable(p: Pipeline, op: Op) {
    && (op.Finalize? ==> WellIndexed(p.heap, p.pending))
    && (op.AsyncCommit? ==> Aligned(p.storage.queue))
  }

  function ImportStep(p: Pipeline, batch: seq<StateCell>, init: Heap): Pipeline {
    var h := p.heap + init;
    Pipeline(h, p.pending + batch, CacheImport(p.cache, batch),
             StorageImport(p.storage, h, batch), ExecImport(p.exec, batch))
  }

  function FinalizeStep(p: Pipeline, whitelist: seq<nat>, f: Apply): Pipeline
    requires WellIndexed(p.heap, p.pending)
  {
    p.(heap := FinalizedHeap(p.heap, p.pending, whitelist, f), pending := [])
  }

  function SyncPrecommitStep(p: Pipeline): Pipeline {
    p.(cache := CacheReset(p.cache), storage := StorageReset(p.storage), exec := ExecPrecommit(p.exec, p.heap))
  }

  function AsyncPrecommitStep(p: Pipeline, codec: Codec): Pipeline {
    p.(cache := CacheEnqueue(p.cache, p.heap), storage := StorageEnqueue(p.storage, p.heap, codec))
  }

  function SyncCommitStep(p: Pipeline, evict: set<string>): Pipeline {
    p.(cache := CacheCommit(p.cache, p.heap, evict), exec := ExecCommit(p.exec))
  }

  function AsyncCommitStep(p: Pipeline): Pipeline
    requires Aligned(p.storage.queue)
  {
    p.(storage := StorageCommit(p.storage))
  }

  function Step(p: Pipeline, op: Op, cfg: Config): Pipeline
    requires Stepable(p, op)
  {
    match op
    case Import(batch, init) => ImportStep(p, batch, init)
    case Finalize(whitelist) => FinalizeStep(p, whitelist, cfg.apply)
    case SyncPrecommit => SyncPrecommitStep(p)
    case AsyncPrecommit => AsyncPrecommitStep(p, cfg.codec)
    case SyncCommit(evict) => SyncCommitStep(p, evict)
    case AsyncCommit => AsyncCommitStep(p)
  }

  // What the committer's methods ask of the state they are called in.
  ghost predicate Ready(p: Pipeline, op: Op) {
    match op
    case Import(batch, init) =>
      && Distinct(batch) && init.Keys == (set c | c in batch) && init.Keys !! p.heap.Keys
      && forall c :: c in init ==> init[c].path.Some?
    case Finalize(_) => WellIndexed(p.heap, p.pending)
    case SyncPrecommit => forall c :: c in p.cache.buffer + p.storage.buffer + p.exec.buffer ==> c in p.heap
    case AsyncPrecommit => forall c :: c in p.cache.buffer + p.storage.buffer ==> c in p.heap
    case SyncCommit(_) => forall c :: c in Flatten(p.cache.queue) ==> c in p.heap && p.heap[c].path.Some?
    case AsyncCommit => Aligned(p.storage.queue)
  }

  ghost predicate Runnable(p: Pipeline, ops: seq<Op>, cfg: Config)
    decreases |ops|
  {
    ops != [] ==> Ready(p, ops[0]) && Runnable(Step(p, ops[0], cfg), ops[1..], cfg)
  }

  ghost function Run(p: Pipeline, ops: seq<Op>, cfg: Config): Pipeline
    requires Runnable(p, ops, cfg)
    decreases |ops|
  {
    if ops == [] then p else Run(Step(p, ops[0], cfg), ops[1..], cfg)
  }
}
