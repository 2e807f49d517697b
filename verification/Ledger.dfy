/**
 The reference for whole runs.  A ledger knows nothing of shared cells being
 flagged, of buffers or of queues: it records the cells as they were imported, turns
 every Finalize into a round (one merged value per path), and moves rounds along as
 the precommits and commits happen.  The pipeline is proved to simulate it over every
 legal run.
 */
module Ledgers {
  import opened Cells
  import opened Seqs
  import opened Batches
  import opened Finalization
  import opened Pipelines

  datatype Ledger = Ledger(
    init: Heap,                        // every imported cell, as imported
    pending: seq<StateCell>,           // imported since the last Finalize
    staged: seq<Round<Value>>,         // finalized, not yet precommitted
    synced: seq<Round<Value>>,         // between the sync and the async precommit
    awaitingAsync: bool,
    history: seq<Round<Value>>,        // every queued round
    nCache: nat,                       // how many of them the live cache has committed
    nStore: nat,                       // how many of them the live storage has committed
    evicted: set<string>,              // keys the cache was ever allowed to drop
    local: map<string, StateCell>,     // the local cells when the block began
    survivors: seq<Round<StateCell>>,  // survivors per round since the last SyncCommit
    values: seq<Round<Value>>,         // their merged values
    published: nat)                    // how many of them the execution cache has seen

  // The protocol: cells are imported once, unflagged; a SyncPrecommit follows the
  // Finalize of everything imported and is followed by its AsyncPrecommit before the
  // next Import; a block is not committed between an Import and its SyncPrecommit.
  ghost predicate Legal(l: Ledger, op: Op) {
    match op
    case Import(batch, init) =>
      && !l.awaitingAsync
      && Distinct(batch)
      && init.Keys == (set c | c in batch)
      && init.Keys !! l.init.Keys
      && forall c :: c in init ==> init[c].path.Some?
    case Finalize(_) => true
    case SyncPrecommit => !l.awaitingAsync && l.pending == []
    case AsyncPrecommit => l.awaitingAsync
    case SyncCommit(_) => l.pending == [] && l.staged == []
    case AsyncCommit => true
  }

  function LedgerStep(l: Ledger, op: Op, f: Apply): Ledger {
    match op
    case Import(batch, init) =>
      l.(init := l.init + init, pending := l.pending + batch)
    case Finalize(whitelist) =>
      l.(staged := l.staged + [RoundOf(l.init, l.pending, whitelist, f)],
         survivors := l.survivors + [SurvivorsOf(l.init, l.pending, whitelist)],
         values := l.values + [ValuesOf(l.init, l.pending, whitelist, f)],
         pending := [])
    case SyncPrecommit =>
      l.(synced := l.staged, staged := [], awaitingAsync := true, published := |l.survivors|)
    case AsyncPrecommit =>
      l.(history := l.history + l.synced, synced := [], awaitingAsync := false)
    case SyncCommit(evict) =>
      l.(nCache := |l.history|, evicted := l.evicted + evict,
         local := map[], survivors := [], values := [], published := 0)
    case AsyncCommit =>
      l.(nStore := |l.history|)
  }

  // ------------------------------------------------------- what entries write

  // Key by key, the entries perform the operations of the rounds.
  ghost predicate Writes<V>(es: seq<Entry<V>>, rounds: seq<Round<V>>) {
    forall k :: KeyOps(es, k) == RoundOps(rounds, k)
  }

  lemma WritesConcat<V>(a: seq<Entry<V>>, r: seq<Round<V>>, b: seq<Entry<V>>, q: seq<Round<V>>)
    requires Writes(a, r) && Writes(b, q)
    ensures Writes(a + b, r + q)
  {
    forall k ensures KeyOps(a + b, k) == RoundOps(r + q, k) {
      KeyOpsConcat(a, b, k);
      RoundOpsConcat(r, q, k);
    }
  }

  function EncodeOps(codec: Codec, k: string, ops: seq<Val>): (r: seq<Option<Bytes>>)
    ensures |r| == |ops|
    ensures forall i :: 0 <= i < |ops| ==> r[i] == EncodeVal(codec, k, ops[i])
  {
    seq(|ops|, i requires 0 <= i < |ops| => EncodeVal(codec, k, ops[i]))
  }

  ghost predicate WritesEncoded(codec: Codec, es: seq<Entry<Bytes>>, rounds: seq<Round<Value>>) {
    forall k :: KeyOps(es, k) == EncodeOps(codec, k, RoundOps(rounds, k))
  }

  lemma EncodeOpsConcat(codec: Codec, k: string, a: seq<Val>, b: seq<Val>)
    ensures EncodeOps(codec, k, a + b) == EncodeOps(codec, k, a) + EncodeOps(codec, k, b)
  {
  }

  lemma WritesEncodedConcat(codec: Codec, a: seq<Entry<Bytes>>, r: seq<Round<Value>>, b: seq<Entry<Bytes>>,
                            q: seq<Round<Value>>)
    requires WritesEncoded(codec, a, r) && WritesEncoded(codec, b, q)
    ensures WritesEncoded(codec, a + b, r + q)
  {
    forall k ensures KeyOps(a + b, k) == EncodeOps(codec, k, RoundOps(r + q, k)) {
      KeyOpsConcat(a, b, k);
      RoundOpsConcat(r, q, k);
      EncodeOpsConcat(codec, k, RoundOps(r, k), RoundOps(q, k));
    }
  }

  // Encoding a generation's entries in two parallel buffers keeps them aligned.
  lemma {:induction false} EncodedEntriesOps(codec: Codec, es: seq<Entry<Value>>, k: string)
    ensures KeyOps(Zip(KeysOf(es), EncodedOf(codec, es)), k) == EncodeOps(codec, k, KeyOps(es, k))
  {
    if es != [] {
      EncodedEntriesOps(codec, es[1..], k);
      assert Zip(KeysOf(es), EncodedOf(codec, es))[1..] == Zip(KeysOf(es[1..]), EncodedOf(codec, es[1..]));
      if es[0].key == k {
        assert EncodeOps(codec, k, [es[0].val] + KeyOps(es[1..], k))
            == [EncodeVal(codec, k, es[0].val)] + EncodeOps(codec, k, KeyOps(es[1..], k));
      }
    }
  }

  function QueueEntries(queue: seq<StorageBatch>): seq<Entry<Bytes>>
    requires Aligned(queue)
  {
    MergedAligned(queue);
    Zip(MergedKeys(queue), MergedEncoded(queue))
  }

  lemma {:induction false} MergedConcat(a: seq<StorageBatch>, b: seq<StorageBatch>)
    ensures MergedKeys(a + b) == MergedKeys(a) + MergedKeys(b)
    ensures MergedEncoded(a + b) == MergedEncoded(a) + MergedEncoded(b)
  {
    if a == [] {
      assert a + b == b;
    } else {
      assert (a + b)[1..] == a[1..] + b;
      MergedConcat(a[1..], b);
    }
  }

  // Merging the generations keeps keys and encoded values index-aligned.
  lemma QueueEntriesSnoc(queue: seq<StorageBatch>, b: StorageBatch)
    requires Aligned(queue) && |b.keys| == |b.encoded|
    ensures Aligned(queue + [b])
    ensures QueueEntries(queue + [b]) == QueueEntries(queue) + Zip(b.keys, b.encoded)
  {
    MergedConcat(queue, [b]);
    assert [b][1..] == [];
    assert MergedKeys([b]) == b.keys && MergedEncoded([b]) == b.encoded;
    MergedAligned(queue);
  }

  // ------------------------------------------------------- the simulation relation

  // The committer's own indexes.
  ghost predicate IndexSim(p: Pipeline, l: Ledger) {
    && p.pending == l.pending
    && p.heap.Keys == l.init.Keys
    && WellIndexed(p.heap, p.pending)
    && WellIndexed(l.init, l.pending)
    && (forall c :: c in l.pending ==> p.heap[c] == l.init[c])
  }

  // Cells a pending Finalize cannot touch.
  ghost predicate Settled(p: Pipeline, s: seq<StateCell>) {
    forall c :: c in s ==> c in p.heap && c !in p.pending
  }

  // A buffer ends in the pending cells its writer keeps; what stands before them.
  ghost predicate EndsIn(buffer: seq<StateCell>, tail: seq<StateCell>) {
    |tail| <= |buffer| && buffer == buffer[..|buffer| - |tail|] + tail
  }

  ghost function Front(buffer: seq<StateCell>, tail: seq<StateCell>): seq<StateCell>
    requires EndsIn(buffer, tail)
  {
    buffer[..|buffer| - |tail|]
  }

  ghost function Kept(p: Pipeline): seq<StateCell> {
    Filter(Persisted(), p.pending)
  }

  ghost predicate ImportSim(p: Pipeline, l: Ledger) {
    && EndsIn(p.cache.importBuffer, Kept(p))
    && Settled(p, Front(p.cache.importBuffer, Kept(p)))
    && Writes(EntriesOf(p.heap, Front(p.cache.importBuffer, Kept(p))), l.staged)
    && (l.awaitingAsync ==> p.cache.importBuffer == [])
  }

  ghost predicate CurrentSim(p: Pipeline, l: Ledger) {
    && Settled(p, p.cache.buffer)
    && Writes(EntriesOf(p.heap, p.cache.buffer), l.synced)
    && (!l.awaitingAsync ==> p.cache.buffer == [])
  }

  // The queued cells are unflagged and out of every later Finalize's reach; read at
  // any later time they still write the rounds that were queued.
  ghost predicate QueueSim(p: Pipeline, l: Ledger) {
    && l.nCache <= |l.history|
    && Settled(p, Flatten(p.cache.queue))
    && (forall c :: c in Flatten(p.cache.queue) ==> p.heap[c].path.Some?)
    && Writes(EntriesOf(p.heap, Flatten(p.cache.queue)), l.history[l.nCache..])
  }

  ghost predicate StorageSim(p: Pipeline, l: Ledger, codec: Codec) {
    && p.storage.importBuffer == p.cache.importBuffer
    && p.storage.buffer == p.cache.buffer
    && Aligned(p.storage.queue)
    && l.nStore <= |l.history|
    && WritesEncoded(codec, QueueEntries(p.storage.queue), l.history[l.nStore..])
  }

  // The execution cache holds, per path, the survivor of the last round that touched it.
  ghost predicate ExecSim(p: Pipeline, l: Ledger) {
    && EndsIn(p.exec.buffer, p.pending)
    && Settled(p, Front(p.exec.buffer, p.pending))
    && Writes(CellEntriesOf(p.heap, Front(p.exec.buffer, p.pending)), l.survivors)
    && l.published <= |l.survivors|
    && p.exec.local == ApplyRounds(l.local, l.survivors[..l.published])
  }

  // Every survivor still has its path and the merged value.
  ghost predicate Carries(p: Pipeline, cells: Round<StateCell>, values: Round<Value>) {
    && cells.Keys == values.Keys
    && forall k :: k in cells ==>
         && cells[k].Some?
         && cells[k].value in p.heap && cells[k].value !in p.pending
         && p.heap[cells[k].value] == CellState(Some(k), values[k])
  }

  ghost predicate ValueSim(p: Pipeline, l: Ledger) {
    && |l.survivors| == |l.values|
    && forall i :: 0 <= i < |l.survivors| ==> Carries(p, l.survivors[i], l.values[i])
  }

  ghost predicate Sim(p: Pipeline, l: Ledger, codec: Codec) {
    && IndexSim(p, l)
    && ImportSim(p, l)
    && CurrentSim(p, l)
    && QueueSim(p, l)
    && StorageSim(p, l, codec)
    && ExecSim(p, l)
    && ValueSim(p, l)
  }
}
