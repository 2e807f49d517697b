/**
 StateCommitter: the two indexes over the shared cells, and the calls that drive the
 writers.  Every method computes the corresponding pipeline step.
 */
module Committer {
  import opened Cells
  import opened Seqs
  import opened DeltaSequences
  import opened Finalization
  import opened Pipelines
  import opened LiveCache
  import opened LiveStorage
  import opened ExecutionCache

  // ------------------------------------------------------------ the indexes

  function Indexed<K(==)>(index: map<K, seq<StateCell>>, k: K): seq<StateCell> {
    if k in index then index[k] else []
  }

  // Cells in the transaction index of `t`: those that do not skip the conflict check.
  function Checked(t: nat): StateCell -> bool {
    (c: StateCell) => !c.skipConflictCheck && c.tx == t
  }

  ghost predicate PathIndex(h: Heap, pending: seq<StateCell>, byPath: map<string, seq<StateCell>>) {
    forall p :: Indexed(byPath, p) == Filter(OnPath(h, p), pending)
  }

  ghost predicate TxIndex(pending: seq<StateCell>, byTx: map<nat, seq<StateCell>>) {
    forall t: nat :: Indexed(byTx, t) == Filter(Checked(t), pending)
  }

  lemma PathIndexSnoc(h: Heap, pending: seq<StateCell>, byPath: map<string, seq<StateCell>>, c: StateCell)
    requires PathIndex(h, pending, byPath) && c in h && h[c].path.Some?
    ensures var k := h[c].path.value; PathIndex(h, pending + [c], byPath[k := Indexed(byPath, k) + [c]])
  {
    var k := h[c].path.value;
    var r := byPath[k := Indexed(byPath, k) + [c]];
    forall p ensures Indexed(r, p) == Filter(OnPath(h, p), pending + [c]) {
      assert Indexed(byPath, p) == Filter(OnPath(h, p), pending);
      FilterSnoc(OnPath(h, p), pending, c);
    }
  }

  lemma PathIndexStep(h: Heap, pending: seq<StateCell>, batch: seq<StateCell>, i: nat,
                      byPath: map<string, seq<StateCell>>)
    requires i < |batch| && batch[i] in h && h[batch[i]].path.Some?
    requires PathIndex(h, pending + batch[..i], byPath)
    ensures var k := h[batch[i]].path.value;
            PathIndex(h, pending + batch[..i + 1], byPath[k := Indexed(byPath, k) + [batch[i]]])
  {
    PathIndexSnoc(h, pending + batch[..i], byPath, batch[i]);
    assert pending + batch[..i] + [batch[i]] == pending + batch[..i + 1];
  }

  method ImportByPath(byPath: map<string, seq<StateCell>>, batch: seq<StateCell>, ghost h: Heap,
                      ghost pending: seq<StateCell>)
    returns (r: map<string, seq<StateCell>>)
    requires Coherent(h) && PathIndex(h, pending, byPath)
    requires forall c :: c in batch ==> c in h && h[c].path.Some?
    ensures PathIndex(h, pending + batch, r)
  {
    r := byPath;
    var i := 0;
    assert pending + batch[..0] == pending;
    while i < |batch|
      invariant 0 <= i <= |batch|
      invariant PathIndex(h, pending + batch[..i], r)
    {
      var c := batch[i];
      assert c in batch && c.State() == h[c];
      PathIndexStep(h, pending, batch, i, r);
      r := r[c.path.value := Indexed(r, c.path.value) + [c]];
      i := i + 1;
    }
    assert batch[..i] == batch;
  }

  lemma TxIndexSnoc(pending: seq<StateCell>, byTx: map<nat, seq<StateCell>>, c: StateCell)
    requires TxIndex(pending, byTx)
    ensures TxIndex(pending + [c], if c.skipConflictCheck then byTx else byTx[c.tx := Indexed(byTx, c.tx) + [c]])
  {
    var r := if c.skipConflictCheck then byTx else byTx[c.tx := Indexed(byTx, c.tx) + [c]];
    forall t: nat ensures Indexed(r, t) == Filter(Checked(t), pending + [c]) {
      assert Indexed(byTx, t) == Filter(Checked(t), pending);
      FilterSnoc(Checked(t), pending, c);
    }
  }

  method ImportByTx(byTx: map<nat, seq<StateCell>>, batch: seq<StateCell>, ghost pending: seq<StateCell>)
    returns (r: map<nat, seq<StateCell>>)
    requires TxIndex(pending, byTx)
    ensures TxIndex(pending + batch, r)
  {
    r := byTx;
    var i := 0;
    assert pending + batch[..0] == pending;
    while i < |batch|
      invariant 0 <= i <= |batch|
      invariant TxIndex(pending + batch[..i], r)
    {
      var c := batch[i];
      TxIndexSnoc(pending + batch[..i], r, c);
      assert pending + batch[..i] + [c] == pending + batch[..i + 1];
      if !c.skipConflictCheck {
        r := r[c.tx := Indexed(r, c.tx) + [c]];
      }
      i := i + 1;
    }
    assert batch[..i] == batch;
  }

  // Path groups and transaction groups partition the pending cells.
  lemma IndexesPartition(h: Heap, pending: seq<StateCell>, byPath: map<string, seq<StateCell>>,
                         byTx: map<nat, seq<StateCell>>, c: StateCell)
    requires WellIndexed(h, pending) && PathIndex(h, pending, byPath) && TxIndex(pending, byTx)
    ensures c in pending <==> exists p :: c in Indexed(byPath, p)
    ensures forall p, q :: c in Indexed(byPath, p) && c in Indexed(byPath, q) ==> p == q
    ensures c in pending && !c.skipConflictCheck <==> exists t: nat :: c in Indexed(byTx, t)
    ensures forall t: nat, u: nat :: c in Indexed(byTx, t) && c in Indexed(byTx, u) ==> t == u
  {
    forall p ensures c in Indexed(byPath, p) <==> c in pending && h[c].path == Some(p) {
      FilterMembers(OnPath(h, p), pending);
    }
    forall t: nat ensures c in Indexed(byTx, t) <==> c in pending && Checked(t)(c) {
      FilterMembers(Checked(t), pending);
    }
    if c in pending {
      assert c in Indexed(byPath, h[c].path.value);
      if !c.skipConflictCheck {
        assert c in Indexed(byTx, c.tx);
      }
    }
  }

  // ------------------------------------------------------------ whitelisting

  function WhitelistedState(h: Heap, pending: seq<StateCell>, whitelist: seq<nat>, c: StateCell): CellState
    requires c in h
  {
    if c in pending && !Admitted(whitelist, c) then h[c].(path := None) else h[c]
  }

  method FlagAll(s: seq<StateCell>)
    modifies (set c | c in s)`path
    ensures forall c :: c in s ==> c.path == None
  {
    var i := 0;
    while i < |s|
      invariant 0 <= i <= |s|
      invariant forall k :: 0 <= k < i ==> s[k].path == None
    {
      s[i].path := None;
      i := i + 1;
    }
  }

  ghost predicate TxGroupsDone(h: Heap, pending: seq<StateCell>, whitelist: seq<nat>, done: set<nat>)
    reads h.Keys
  {
    forall c :: c in h ==>
      var rejected := c in pending && !c.skipConflictCheck && c.tx in done && c.tx !in whitelist;
      c.State() == (if rejected then h[c].(path := None) else h[c])
  }

  // One transaction group: if the transaction is off the whitelist all its cells go.
  method WhitelistGroup(vec: seq<StateCell>, t: nat, whitelist: seq<nat>, ghost h: Heap,
                        ghost pending: seq<StateCell>, ghost done: set<nat>)
    requires WellIndexed(h, pending) && vec == Filter(Checked(t), pending)
    requires TxGroupsDone(h, pending, whitelist, done)
    modifies h.Keys
    ensures TxGroupsDone(h, pending, whitelist, done + {t})
  {
    FilterMembers(Checked(t), pending);
    if t !in whitelist {
      FlagAll(vec);
    }
  }

  // The transaction groups are visited in any order.
  method WhitelistGroups(byTx: map<nat, seq<StateCell>>, whitelist: seq<nat>, ghost h: Heap,
                         ghost pending: seq<StateCell>)
    requires Coherent(h) && WellIndexed(h, pending) && TxIndex(pending, byTx)
    modifies h.Keys
    ensures TxGroupsDone(h, pending, whitelist, byTx.Keys)
  {
    var todo := byTx.Keys;
    while todo != {}
      invariant todo <= byTx.Keys
      invariant TxGroupsDone(h, pending, whitelist, byTx.Keys - todo)
      decreases |todo|
    {
      var t :| t in todo;
      var vec := byTx[t];
      assert vec == Indexed(byTx, t);
      WhitelistGroup(vec, t, whitelist, h, pending, byTx.Keys - todo);
      assert byTx.Keys - todo + {t} == byTx.Keys - (todo - {t});
      todo := todo - {t};
    }
    assert byTx.Keys - {} == byTx.Keys;
  }

  // Every cell that does not skip the check is in some group.
  lemma GroupsCover(pending: seq<StateCell>, byTx: map<nat, seq<StateCell>>, c: StateCell)
    requires TxIndex(pending, byTx) && c in pending && !c.skipConflictCheck
    ensures c.tx in byTx.Keys
  {
    FilterMembers(Checked(c.tx), pending);
    assert Checked(c.tx)(c);
    assert c in Indexed(byTx, c.tx);
  }

  method Whitelist(byTx: map<nat, seq<StateCell>>, whitelist: seq<nat>, ghost h: Heap, ghost pending: seq<StateCell>)
    requires Coherent(h) && WellIndexed(h, pending) && TxIndex(pending, byTx)
    modifies h.Keys
    ensures forall c :: c in h ==> c.State() == WhitelistedState(h, pending, whitelist, c)
  {
    if |whitelist| == 0 {
      return;
    }
    WhitelistGroups(byTx, whitelist, h, pending);
    forall c | c in pending && !c.skipConflictCheck ensures c.tx in byTx.Keys {
      GroupsCover(pending, byTx, c);
    }
  }

  // ------------------------------------------------------------ finalizing the groups

  // What the calls before path group `k` is visited have made of the cells.
  ghost predicate GroupsDone(h: Heap, pending: seq<StateCell>, whitelist: seq<nat>, f: Apply, done: set<string>)
    requires WellIndexed(h, pending)
    reads h.Keys
  {
    forall c :: c in h ==>
      var visited := c in pending && h[c].path.value in done;
      c.State() == (if visited then FinalizedState(h, pending, whitelist, f, c)
                    else WhitelistedState(h, pending, whitelist, c))
  }

  // A cell off the whitelist only loses its path.
  lemma DroppedState(h: Heap, pending: seq<StateCell>, whitelist: seq<nat>, f: Apply, k: string, c: StateCell)
    requires WellIndexed(h, pending) && c in pending && h[c].path == Some(k)
    requires c !in Group(h, pending, whitelist, k)
    ensures FinalizedState(h, pending, whitelist, f, c) == WhitelistedState(h, pending, whitelist, c)
  {
    GroupMembers(h, pending, whitelist, k);
  }

  lemma AdmittedState(h: Heap, pending: seq<StateCell>, whitelist: seq<nat>, k: string, c: StateCell)
    requires WellIndexed(h, pending) && c in Group(h, pending, whitelist, k)
    ensures c in pending && h[c].path == Some(k) && WhitelistedState(h, pending, whitelist, c) == h[c]
    ensures c in SortedGroup(h, pending, whitelist, k)
  {
    GroupMembers(h, pending, whitelist, k);
  }

  // Sort and merge the admitted transitions of one path.
  method MergeGroup(live: seq<StateCell>, k: string, whitelist: seq<nat>, f: Apply, ghost h: Heap,
                    ghost pending: seq<StateCell>)
    requires WellIndexed(h, pending) && live == Group(h, pending, whitelist, k) && live != []
    requires forall c :: c in live ==> c in h && c.State() == h[c]
    modifies set c | c in live
    ensures forall c :: c in live ==> c in h && c.State() == FinalizedState(h, pending, whitelist, f, c)
  {
    FilterDistinct(AdmittedOn(h, whitelist, k), pending);
    var s := FinalizeSequence(live, f, h);
    assert s == SortedGroup(h, pending, whitelist, k);
    forall c | c in live ensures c.State() == FinalizedState(h, pending, whitelist, f, c) {
      AdmittedState(h, pending, whitelist, k, c);
      GroupMembers(h, pending, whitelist, k);
      var i :| 0 <= i < |s| && s[i] == c;
      SurvivorIff(h, pending, whitelist, f, c, k);
    }
  }

  // One path group: drop the flagged cells, sort and merge the rest.
  method FinalizeGroup(vec: seq<StateCell>, k: string, whitelist: seq<nat>, f: Apply, ghost h: Heap,
                       ghost pending: seq<StateCell>)
    requires WellIndexed(h, pending) && vec == Filter(OnPath(h, k), pending)
    requires forall c :: c in vec ==> c in h && c.State() == WhitelistedState(h, pending, whitelist, c)
    modifies set c | c in vec
    ensures forall c :: c in vec ==> c in h && c.State() == FinalizedState(h, pending, whitelist, f, c)
  {
    FilterMembers(OnPath(h, k), pending);
    var live := LiveCells(vec, k, whitelist, h, pending);
    forall c | c in live ensures c in vec && c.State() == h[c] {
      AdmittedState(h, pending, whitelist, k, c);
    }
    if |live| > 0 {
      MergeGroup(live, k, whitelist, f, h, pending);
    }
    forall c | c in vec && c !in live
      ensures FinalizedState(h, pending, whitelist, f, c) == WhitelistedState(h, pending, whitelist, c)
    {
      DroppedState(h, pending, whitelist, f, k, c);
    }
  }

  method LiveCells(vec: seq<StateCell>, k: string, whitelist: seq<nat>, ghost h: Heap, ghost pending: seq<StateCell>)
    returns (live: seq<StateCell>)
    requires WellIndexed(h, pending) && vec == Filter(OnPath(h, k), pending)
    requires forall c :: c in vec ==> c in h && c.State() == WhitelistedState(h, pending, whitelist, c)
    ensures live == Group(h, pending, whitelist, k)
  {
    ghost var here: Heap := map c | c in vec :: c.State();
    live := RemoveFlagged(vec, here);
    FilterMembers(OnPath(h, k), pending);
    FilterAgree(Unflagged(here), AdmittedOn(h, whitelist, k), vec);
    FilterTwice(AdmittedOn(h, whitelist, k), OnPath(h, k), AdmittedOn(h, whitelist, k), pending);
  }

  // The path groups are visited in any order; the result does not depend on it.
  method FinalizeGroups(byPath: map<string, seq<StateCell>>, whitelist: seq<nat>, f: Apply, ghost h: Heap,
                        ghost pending: seq<StateCell>)
    requires WellIndexed(h, pending) && PathIndex(h, pending, byPath)
    requires GroupsDone(h, pending, whitelist, f, {})
    modifies h.Keys
    ensures forall c :: c in h ==> c.State() == FinalizedState(h, pending, whitelist, f, c)
  {
    var todo := byPath.Keys;
    while todo != {}
      invariant todo <= byPath.Keys
      invariant GroupsDone(h, pending, whitelist, f, byPath.Keys - todo)
      decreases |todo|
    {
      var k :| k in todo;
      var vec := byPath[k];
      assert vec == Indexed(byPath, k);
      FilterMembers(OnPath(h, k), pending);
      FinalizeGroup(vec, k, whitelist, f, h, pending);
      todo := todo - {k};
    }
    forall c | c in pending ensures h[c].path.value in byPath.Keys {
      FilterMembers(OnPath(h, h[c].path.value), pending);
      assert c in Indexed(byPath, h[c].path.value);
    }
  }

  // ------------------------------------------------------------ the committer

  // The cells of a batch are new, and `init` says what is in them.
  ghost predicate Fresh(h: Heap, batch: seq<StateCell>, init: Heap)
    reads init.Keys
  {
    && Coherent(init) && init.Keys !! h.Keys && init.Keys == (set c | c in batch)
    && forall c :: c in init ==> init[c].path.Some?
  }

  class StateCommitter {
    const apply: Apply
    const cacheWriter: LiveCacheWriter
    const storageWriter: LiveStorageWriter
    const execWriter: ExecutionCacheWriter
    var byPath: map<string, seq<StateCell>>
    var byTxID: map<nat, seq<StateCell>>
    ghost var heap: Heap                 // every cell ever imported, and its state
    ghost var pending: seq<StateCell>    // imported since the last Finalize

    ghost function Cfg(): Config
      reads this, storageWriter
    {
      Config(apply, storageWriter.codec)
    }

    ghost predicate IndexesValid()
      reads this
    {
      && WellIndexed(heap, pending)
      && PathIndex(heap, pending, byPath)
      && TxIndex(pending, byTxID)
    }

    ghost predicate WritersValid()
      reads this, cacheWriter, cacheWriter.buffer, storageWriter, storageWriter.buffer
    {
      cacheWriter.Valid() && storageWriter.Valid()
    }

    ghost predicate Valid()
      reads this, heap.Keys, cacheWriter, cacheWriter.buffer, storageWriter, storageWriter.buffer
    {
      Coherent(heap) && IndexesValid() && WritersValid()
    }

    ghost function Repr(): set<object>
      reads this, cacheWriter, storageWriter
    {
      {this, execWriter} + cacheWriter.Repr() + storageWriter.Repr()
    }

    ghost function State(): Pipeline
      reads this, cacheWriter, cacheWriter.indexer, storageWriter, storageWriter.indexer, execWriter
    {
      Pipeline(heap, pending, cacheWriter.State(), storageWriter.State(), execWriter.State())
    }

    constructor (apply: Apply, cacheWriter: LiveCacheWriter, storageWriter: LiveStorageWriter,
                 execWriter: ExecutionCacheWriter)
      requires cacheWriter.Valid() && storageWriter.Valid()
      ensures Valid() && State() == Pipeline(map[], [], cacheWriter.State(), storageWriter.State(), execWriter.State())
      ensures this.apply == apply && this.cacheWriter == cacheWriter
      ensures this.storageWriter == storageWriter && this.execWriter == execWriter
    {
      this.apply, this.cacheWriter := apply, cacheWriter;
      this.storageWriter, this.execWriter := storageWriter, execWriter;
      byPath, byTxID := map[], map[];
      heap, pending := map[], [];
    }

    method IndexTransitions(transitions: seq<StateCell>, ghost h': Heap)
      requires IndexesValid() && Distinct(transitions) && Coherent(h')
      requires forall c :: c in heap ==> c in h' && heap[c] == h'[c] && c !in transitions
      requires forall c :: c in transitions ==> c in h' && h'[c].path.Some?
      modifies this`byPath, this`byTxID, this`heap, this`pending
      ensures IndexesValid() && heap == h' && pending == old(pending) + transitions
    {
      IndexExtends(heap, h', pending, byPath, transitions);
      byPath := ImportByPath(byPath, transitions, h', pending);
      byTxID := ImportByTx(byTxID, transitions, pending);
      heap, pending := h', pending + transitions;
    }

    method BufferTransitions(transitions: seq<StateCell>, ghost h: Heap)
      requires WritersValid() && Coherent(h) && forall c :: c in transitions ==> c in h
      modifies cacheWriter.indexer, storageWriter.indexer, execWriter
      ensures WritersValid()
      ensures cacheWriter.State() == CacheImport(old(cacheWriter.State()), transitions)
      ensures storageWriter.State() == StorageImport(old(storageWriter.State()), h, transitions)
      ensures execWriter.State() == ExecImport(old(execWriter.State()), transitions)
    {
      cacheWriter.Import(transitions);
      storageWriter.Import(transitions, h);
      execWriter.Import(transitions);
    }

    // The same cells go to both indexes and to every writer.
    method Import(transitions: seq<StateCell>, ghost init: Heap)
      requires Valid() && Distinct(transitions) && Fresh(heap, transitions, init)
      modifies this, cacheWriter.indexer, storageWriter.indexer, execWriter
      ensures Valid() && Repr() == old(Repr())
      ensures State() == ImportStep(old(State()), transitions, init)
    {
      ghost var h' := heap + init;
      IndexTransitions(transitions, h');
      BufferTransitions(transitions, h');
    }

    method FinalizeCells(txs: seq<nat>, ghost h: Heap)
      requires IndexesValid() && Coherent(h) && h == heap
      modifies h.Keys
      ensures Coherent(FinalizedHeap(h, pending, txs, apply))
    {
      Whitelist(byTxID, txs, h, pending);
      FinalizeGroups(byPath, txs, apply, h, pending);
    }

    method ClearIndexes()
      modifies this`byPath, this`byTxID, this`pending
      ensures IndexesValid() && pending == []
    {
      byPath, byTxID := map[], map[];
      pending := [];
    }

    // Drop what is off the whitelist, merge each path's transitions, clear both indexes.
    method Finalize(txs: seq<nat>)
      requires Valid()
      modifies this`byPath, this`byTxID, this`pending, this`heap, heap.Keys
      ensures Valid() && heap.Keys == old(heap).Keys && Repr() == old(Repr())
      ensures State() == FinalizeStep(old(State()), txs, apply)
    {
      FinalizeCells(txs, heap);
      heap := FinalizedHeap(heap, pending, txs, apply);
      ClearIndexes();
    }

    // All writers but the Ethereum one.
    method SyncPrecommit()
      requires Valid()
      requires forall c :: c in State().cache.buffer + State().storage.buffer + State().exec.buffer ==> c in heap
      modifies cacheWriter, cacheWriter.indexer, storageWriter, storageWriter.indexer, execWriter
      ensures Valid() && fresh(Repr() - old(Repr()))
      ensures State() == SyncPrecommitStep(old(State()))
    {
      PrecommitSyncWriters(heap);
    }

    method PrecommitSyncWriters(ghost h: Heap)
      requires WritersValid() && Coherent(h)
      requires forall c :: c in cacheWriter.State().buffer ==> c in h
      requires forall c :: c in storageWriter.State().buffer ==> c in h
      requires forall c :: c in execWriter.State().buffer ==> c in h
      modifies cacheWriter, cacheWriter.indexer, storageWriter, storageWriter.indexer, execWriter
      ensures WritersValid()
      ensures fresh(cacheWriter.Repr() - old(cacheWriter.Repr()))
      ensures fresh(storageWriter.Repr() - old(storageWriter.Repr()))
      ensures cacheWriter.State() == CacheReset(old(cacheWriter.State()))
      ensures storageWriter.State() == StorageReset(old(storageWriter.State()))
      ensures execWriter.State() == ExecPrecommit(old(execWriter.State()), h)
    {
      PrecommitStores(true, h);
      execWriter.Precommit(h);
    }

    method PrecommitStores(isSync: bool, ghost h: Heap)
      requires WritersValid() && Coherent(h)
      requires forall c :: c in cacheWriter.State().buffer ==> c in h
      requires forall c :: c in storageWriter.State().buffer ==> c in h
      modifies cacheWriter, cacheWriter.indexer, storageWriter, storageWriter.indexer
      ensures WritersValid()
      ensures fresh(cacheWriter.Repr() - old(cacheWriter.Repr()))
      ensures fresh(storageWriter.Repr() - old(storageWriter.Repr()))
      ensures cacheWriter.State()
           == if isSync then CacheReset(old(cacheWriter.State())) else CacheEnqueue(old(cacheWriter.State()), h)
      ensures storageWriter.State()
           == if isSync then StorageReset(old(storageWriter.State()))
              else StorageEnqueue(old(storageWriter.State()), h, storageWriter.codec)
    {
      cacheWriter.Precommit(isSync, h);
      storageWriter.Precommit(isSync, h);
    }

    // All writers but the execution cache.
    method AsyncPrecommit()
      requires Valid()
      requires forall c :: c in State().cache.buffer + State().storage.buffer ==> c in heap
      modifies cacheWriter, cacheWriter.indexer, storageWriter, storageWriter.indexer
      ensures Valid() && fresh(Repr() - old(Repr()))
      ensures State() == AsyncPrecommitStep(old(State()), storageWriter.codec)
    {
      PrecommitStores(false, heap);
    }

    // The writers that commit with the block: execution cache and live cache.
    method SyncCommit(evicted: set<string>)
      requires Valid()
      requires forall c :: c in Flatten(State().cache.queue) ==> c in heap && c.path.Some?
      modifies cacheWriter, execWriter
      ensures Valid() && Repr() <= old(Repr())
      ensures State() == SyncCommitStep(old(State()), evicted)
    {
      CommitSyncWriters(evicted, heap);
    }

    method CommitSyncWriters(evicted: set<string>, ghost h: Heap)
      requires WritersValid() && Coherent(h)
      requires forall c :: c in Flatten(cacheWriter.queue) ==> c in h && h[c].path.Some?
      modifies cacheWriter, execWriter
      ensures WritersValid() && cacheWriter.Repr() <= old(cacheWriter.Repr())
      ensures cacheWriter.State() == CacheCommit(old(cacheWriter.State()), h, evicted)
      ensures execWriter.State() == ExecCommit(old(execWriter.State()))
    {
      cacheWriter.Commit(evicted, h);
      execWriter.Commit();
    }

    // The writer that commits later: live storage.
    method AsyncCommit()
      requires Valid() && Aligned(State().storage.queue)
      modifies storageWriter
      ensures Valid() && Repr() <= old(Repr())
      ensures State() == AsyncCommitStep(old(State()))
    {
      storageWriter.Commit();
    }
  }

  lemma IndexExtends(h: Heap, h': Heap, pending: seq<StateCell>, byPath: map<string, seq<StateCell>>,
                     batch: seq<StateCell>)
    requires WellIndexed(h, pending) && PathIndex(h, pending, byPath) && Distinct(batch)
    requires forall c :: c in h ==> c in h' && h[c] == h'[c] && c !in batch
    requires forall c :: c in batch ==> c in h' && h'[c].path.Some?
    ensures PathIndex(h', pending, byPath) && WellIndexed(h', pending + batch)
  {
    DistinctConcat(pending, batch);
    forall p ensures Indexed(byPath, p) == Filter(OnPath(h', p), pending) {
      assert Indexed(byPath, p) == Filter(OnPath(h, p), pending);
      FilterAgree(OnPath(h, p), OnPath(h', p), pending);
    }
  }
}
