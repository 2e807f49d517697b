/**
 Concrete runs in which the pipeline does not do what a reader may expect of it; the
 exact conditions are in Runs.dfy, Reads.dfy and Conservation.dfy.
 */
module Witnesses {
  import opened Cells
  import opened Seqs
  import opened DeltaSequences
  import opened Batches
  import opened Finalization
  import opened Pipelines
  import opened Ledgers
  import opened Runs
  import opened Reads
  import opened Conservation

  // One cell, imported with path `k`.
  function Alone(c: StateCell, k: string, v: Val): Heap {
    map[c := CellState(Some(k), v)]
  }

  lemma FilterOne<T>(keep: T -> bool, x: T)
    requires keep(x)
    ensures Filter(keep, [x]) == [x]
  {
    FilterSnoc(keep, [], x);
    assert [] + [x] == [x];
  }

  // One pending cell is its path's group, its own survivor, and keeps its value.
  lemma SingleGroup(h: Heap, c: StateCell, k: string, v: Val)
    requires c in h && h[c] == CellState(Some(k), v)
    ensures WellIndexed(h, [c]) && SortedGroup(h, [c], [], k) == [c]
  {
    FilterOne(AdmittedOn(h, [], k), c);
    assert [c][..0] == [] && Sorted([c]) == [c];
  }

  lemma SingleRound(h: Heap, c: StateCell, k: string, v: Val, f: Apply)
    requires c in h && h[c] == CellState(Some(k), v) && !c.blockBound
    ensures RoundOf(h, [c], [], f) == map[k := v]
  {
    SingleGroup(h, c, k, v);
    assert [c][1..] == [] && Merged(f, h, [c]) == v;
    assert PathsOf(h, [c]) == {k};
  }

  lemma SingleSurvives(h: Heap, c: StateCell, k: string, v: Val, f: Apply)
    requires c in h && h[c] == CellState(Some(k), v)
    ensures WellIndexed(h, [c]) && FinalizedHeap(h, [c], [], f) == h
  {
    SingleGroup(h, c, k, v);
    assert [c][1..] == [] && Merged(f, h, [c]) == v;
    assert FinalizedState(h, [c], [], f, c) == h[c];
  }

  // ------------------------------------------------------- stepping through a run

  lemma LedgerCons(l: Ledger, op: Op, rest: seq<Op>, f: Apply)
    requires Legal(l, op) && LegalRun(LedgerStep(l, op, f), rest, f)
    ensures LegalRun(l, [op] + rest, f)
    ensures LedgerRun(l, [op] + rest, f) == LedgerRun(LedgerStep(l, op, f), rest, f)
  {
    assert ([op] + rest)[1..] == rest;
  }

  lemma EventCons(l: Ledger, op: Op, rest: seq<Op>, f: Apply, k: string)
    requires Counted(l)
    ensures var later := LastCacheEvent(LedgerStep(l, op, f), rest, f, k);
            LastCacheEvent(l, [op] + rest, f, k) == if later.Untouched? then CacheEvent(l, op, k) else later
    ensures var later := LastStoreEvent(LedgerStep(l, op, f), rest, f, k);
            LastStoreEvent(l, [op] + rest, f, k) == if later.Untouched? then StoreEvent(l, op, k) else later
  {
    assert ([op] + rest)[1..] == rest;
  }

  lemma RunCons(p: Pipeline, op: Op, rest: seq<Op>, cfg: Config)
    requires Ready(p, op) && Runnable(Step(p, op, cfg), rest, cfg)
    ensures Runnable(p, [op] + rest, cfg)
    ensures Run(p, [op] + rest, cfg) == Run(Step(p, op, cfg), rest, cfg)
  {
    assert ([op] + rest)[1..] == rest;
  }

  // ------------------------------------------------------- one generation

  // A generation that writes one value to `k`, and what comes after it.
  function Generation(c: StateCell, k: string, v: Val, rest: seq<Op>): seq<Op> {
    [Import([c], Alone(c, k, v))] + ([Finalize([])] + ([SyncPrecommit] + ([AsyncPrecommit] + rest)))
  }

  // Between two generations.
  ghost predicate Rested(l: Ledger) {
    Counted(l) && l.pending == [] && l.staged == [] && l.synced == [] && !l.awaitingAsync
  }

  function AfterImport(l: Ledger, c: StateCell, k: string, v: Val, f: Apply): Ledger {
    LedgerStep(l, Import([c], Alone(c, k, v)), f)
  }

  function AfterSync(l: Ledger, c: StateCell, k: string, v: Val, f: Apply): Ledger {
    LedgerStep(LedgerStep(AfterImport(l, c, k, v, f), Finalize([]), f), SyncPrecommit, f)
  }

  function AfterGeneration(l: Ledger, c: StateCell, k: string, v: Val, f: Apply): Ledger {
    LedgerStep(AfterSync(l, c, k, v, f), AsyncPrecommit, f)
  }

  lemma GenerationQueued(l: Ledger, c: StateCell, k: string, v: Val, f: Apply)
    requires Rested(l) && c !in l.init && !c.blockBound
    ensures var l' := AfterGeneration(l, c, k, v, f);
            && Rested(l') && l'.history == l.history + [map[k := v]] && l'.init.Keys == l.init.Keys + {c}
            && l'.nCache == l.nCache && l'.nStore == l.nStore && l'.evicted == l.evicted
  {
    var l1 := AfterImport(l, c, k, v, f);
    assert l1.pending == [c] && l1.init[c] == CellState(Some(k), v);
    SingleRound(l1.init, c, k, v, f);
  }

  lemma GenerationLegal(l: Ledger, c: StateCell, k: string, v: Val, rest: seq<Op>, f: Apply)
    requires Rested(l) && c !in l.init && LegalRun(AfterGeneration(l, c, k, v, f), rest, f)
    ensures LegalRun(l, Generation(c, k, v, rest), f)
    ensures LedgerRun(l, Generation(c, k, v, rest), f) == LedgerRun(AfterGeneration(l, c, k, v, f), rest, f)
  {
    var l1 := AfterImport(l, c, k, v, f);
    LedgerCons(AfterSync(l, c, k, v, f), AsyncPrecommit, rest, f);
    LedgerCons(LedgerStep(l1, Finalize([]), f), SyncPrecommit, [AsyncPrecommit] + rest, f);
    LedgerCons(l1, Finalize([]), [SyncPrecommit] + ([AsyncPrecommit] + rest), f);
    LedgerCons(l, Import([c], Alone(c, k, v)), [Finalize([])] + ([SyncPrecommit] + ([AsyncPrecommit] + rest)), f);
  }

  // A generation commits nothing.
  lemma GenerationEvents(l: Ledger, c: StateCell, k: string, v: Val, rest: seq<Op>, f: Apply)
    requires Rested(l) && Counted(AfterGeneration(l, c, k, v, f))
    ensures LastCacheEvent(l, Generation(c, k, v, rest), f, k)
         == LastCacheEvent(AfterGeneration(l, c, k, v, f), rest, f, k)
    ensures LastStoreEvent(l, Generation(c, k, v, rest), f, k)
         == LastStoreEvent(AfterGeneration(l, c, k, v, f), rest, f, k)
  {
    var l1 := AfterImport(l, c, k, v, f);
    EventCons(AfterSync(l, c, k, v, f), AsyncPrecommit, rest, f, k);
    EventCons(LedgerStep(l1, Finalize([]), f), SyncPrecommit, [AsyncPrecommit] + rest, f, k);
    EventCons(l1, Finalize([]), [SyncPrecommit] + ([AsyncPrecommit] + rest), f, k);
    EventCons(l, Import([c], Alone(c, k, v)), [Finalize([])] + ([SyncPrecommit] + ([AsyncPrecommit] + rest)), f, k);
  }

  lemma CommitLegal(l: Ledger, f: Apply)
    requires Rested(l)
    ensures LegalRun(l, [SyncCommit({})] + [], f)
    ensures LedgerRun(l, [SyncCommit({})] + [], f) == LedgerStep(l, SyncCommit({}), f)
  {
    LedgerCons(l, SyncCommit({}), [], f);
  }

  lemma CommitEvents(l: Ledger, f: Apply, k: string)
    requires Rested(l) && l.nCache == 0 && RoundOps(l.history, k) != []
    ensures LastCacheEvent(l, [SyncCommit({})] + [], f, k) == Flushed(RoundOps(l.history, k))
    ensures LastStoreEvent(l, [SyncCommit({})] + [], f, k) == Untouched
  {
    assert l.history[0..] == l.history;
    EventCons(l, SyncCommit({}), [], f, k);
  }

  // ------------------------------------------------------- a key that stays

  // A block that sets `k` in one generation and deletes it in the next.
  function SetDeleteBlock(c: StateCell, d: StateCell, k: string, v: Value): seq<Op> {
    Generation(c, k, Some(v), Generation(d, k, None, [SyncCommit({})] + []))
  }

  function AfterSetDelete(c: StateCell, d: StateCell, k: string, v: Value, f: Apply): Ledger {
    AfterGeneration(AfterGeneration(StartLedger({}, map[]), c, k, Some(v), f), d, k, None, f)
  }

  lemma SetDeleteQueued(c: StateCell, d: StateCell, k: string, v: Value, f: Apply)
    requires c != d && !c.blockBound && !d.blockBound
    ensures var l := AfterSetDelete(c, d, k, v, f);
            && Rested(l) && l.history == [map[k := Some(v)], map[k := None]]
            && l.nCache == 0 && l.nStore == 0 && l.evicted == {}
  {
    var l0 := StartLedger({}, map[]);
    GenerationQueued(l0, c, k, Some(v), f);
    GenerationQueued(AfterGeneration(l0, c, k, Some(v), f), d, k, None, f);
  }

  lemma SetDeleteLegal(c: StateCell, d: StateCell, k: string, v: Value, f: Apply)
    requires c != d && !c.blockBound && !d.blockBound
    ensures var l, ops := StartLedger({}, map[]), SetDeleteBlock(c, d, k, v);
            && LegalRun(l, ops, f)
            && LedgerRun(l, ops, f).history == [map[k := Some(v)], map[k := None]]
            && LedgerRun(l, ops, f).nCache == 2
  {
    var l0 := StartLedger({}, map[]);
    var l1 := AfterGeneration(l0, c, k, Some(v), f);
    GenerationQueued(l0, c, k, Some(v), f);
    SetDeleteQueued(c, d, k, v, f);
    CommitLegal(AfterSetDelete(c, d, k, v, f), f);
    GenerationLegal(l1, d, k, None, [SyncCommit({})] + [], f);
    GenerationLegal(l0, c, k, Some(v), Generation(d, k, None, [SyncCommit({})] + []), f);
  }

  lemma SetDeleteEvents(c: StateCell, d: StateCell, k: string, v: Value, f: Apply)
    requires c != d && !c.blockBound && !d.blockBound
    ensures LastCacheEvent(StartLedger({}, map[]), SetDeleteBlock(c, d, k, v), f, k) == Flushed([Some(v), None])
  {
    var l0 := StartLedger({}, map[]);
    var l1 := AfterGeneration(l0, c, k, Some(v), f);
    GenerationQueued(l0, c, k, Some(v), f);
    SetDeleteQueued(c, d, k, v, f);
    SetDeleteOps(k, v);
    CommitEvents(AfterSetDelete(c, d, k, v, f), f, k);
    GenerationEvents(l1, d, k, None, [SyncCommit({})] + [], f);
    GenerationEvents(l0, c, k, Some(v), Generation(d, k, None, [SyncCommit({})] + []), f);
  }

  lemma SetDeleteOps(k: string, v: Value)
    ensures var history: seq<Round<Value>> := [map[k := Some(v)], map[k := None]];
            RoundOps(history, k) == [Some(v), None]
  {
    var first: Round<Value>, second: Round<Value> := map[k := Some(v)], map[k := None];
    assert [first, second] == [first] + [second];
    RoundOpsConcat([first], [second], k);
    RoundOpsOne(first, k);
    RoundOpsOne(second, k);
  }

  lemma SetDeleteWrong(v: Value)
    ensures var ops: seq<Val> := [Some(v), None]; SetThenDeleted(ops)
  {
    var ops: seq<Val> := [Some(v), None];
    assert ops[0].Some?;
  }

  lemma SetDeleteDisagrees(c: StateCell, d: StateCell, k: string, v: Value, cfg: Config)
    requires c != d && !c.blockBound && !d.blockBound && Lossless(cfg.codec)
    ensures var p := StartPipeline(map[], map[], map[]);
            var l, ops := StartLedger({}, map[]), SetDeleteBlock(c, d, k, v);
            && LegalRun(l, ops, cfg.apply) && Runnable(p, ops, cfg) && Counted(LedgerRun(l, ops, cfg.apply))
            && !CacheAgrees(Run(p, ops, cfg), LedgerRun(l, ops, cfg.apply), map[], k)
  {
    SetDeleteLegal(c, d, k, v, cfg.apply);
    SetDeleteEvents(c, d, k, v, cfg.apply);
    SetDeleteWrong(v);
    StartHolds(map[], map[], map[], {}, cfg.codec);
    var l, ops := StartLedger({}, map[]), SetDeleteBlock(c, d, k, v);
    CacheKeyExact(StartPipeline(map[], map[], map[]), l, ops, cfg, map[], k);
  }

  lemma DisagreesIsThere(p: Pipeline, l: Ledger, k: string, v: Value)
    requires l.history == [map[k := Some(v)], map[k := None]] && l.nCache == 2
    requires !CacheAgrees(p, l, map[], k)
    ensures k !in ApplyRounds(map[], l.history) && k in p.cache.cache
  {
    SetDeleteOps(k, v);
    ApplyRoundsAt<Value>(map[], l.history, k);
    assert l.history[..l.nCache] == l.history;
  }

  // The block created and removed the key, and the live cache still has it.
  lemma DeletedKeyStays(c: StateCell, d: StateCell, k: string, v: Value, cfg: Config)
    requires c != d && !c.blockBound && !d.blockBound && Lossless(cfg.codec)
    ensures var p := StartPipeline(map[], map[], map[]);
            var l, ops := StartLedger({}, map[]), SetDeleteBlock(c, d, k, v);
            && LegalRun(l, ops, cfg.apply) && Runnable(p, ops, cfg)
            && k !in ApplyRounds(map[], LedgerRun(l, ops, cfg.apply).history)
            && k in Run(p, ops, cfg).cache.cache
  {
    var p := StartPipeline(map[], map[], map[]);
    var l, ops := StartLedger({}, map[]), SetDeleteBlock(c, d, k, v);
    SetDeleteLegal(c, d, k, v, cfg.apply);
    SetDeleteDisagrees(c, d, k, v, cfg);
    DisagreesIsThere(Run(p, ops, cfg), LedgerRun(l, ops, cfg.apply), k, v);
  }

  // ------------------------------------------------------- a stale read

  // A block that deletes `k`, up to the commit of the sync writers.
  function DeleteBlock(c: StateCell, k: string): seq<Op> {
    Generation(c, k, None, [SyncCommit({})] + [])
  }

  lemma DeleteBlockLegal(c: StateCell, k: string, f: Apply)
    requires !c.blockBound
    ensures var l, ops := StartLedger({}, map[]), DeleteBlock(c, k);
            && LegalRun(l, ops, f)
            && LedgerRun(l, ops, f).history == [map[k := None]]
            && LedgerRun(l, ops, f).nCache == 1 && LedgerRun(l, ops, f).nStore == 0
            && LedgerRun(l, ops, f).evicted == {}
  {
    var l := StartLedger({}, map[]);
    GenerationQueued(l, c, k, None, f);
    CommitLegal(AfterGeneration(l, c, k, None, f), f);
    GenerationLegal(l, c, k, None, [SyncCommit({})] + [], f);
  }

  lemma DeleteBlockRight(c: StateCell, k: string, f: Apply)
    requires !c.blockBound
    ensures KeyRight(StartLedger({}, map[]), DeleteBlock(c, k), f, k)
  {
    var l := StartLedger({}, map[]);
    GenerationQueued(l, c, k, None, f);
    RoundOpsOne<Value>(map[k := None], k);
    CommitEvents(AfterGeneration(l, c, k, None, f), f, k);
    GenerationEvents(l, c, k, None, [SyncCommit({})] + [], f);
  }

  lemma CachedStart(k: string, v: Value, codec: Codec)
    requires Lossless(codec)
    ensures var p, l := StartPipeline(map[k := v], map[k := codec.encode(k, v)], map[]), StartLedger({}, map[]);
            Agree(p, l, map[k := v], codec, k)
  {
    assert Reference(map[k := v], StartLedger({}, map[]), 0) == map[k := v];
  }

  lemma DeleteBlockAgrees(c: StateCell, k: string, v: Value, cfg: Config)
    requires !c.blockBound && Lossless(cfg.codec)
    ensures var p := StartPipeline(map[k := v], map[k := cfg.codec.encode(k, v)], map[]);
            var l, ops := StartLedger({}, map[]), DeleteBlock(c, k);
            && LegalRun(l, ops, cfg.apply) && Runnable(p, ops, cfg) && Counted(LedgerRun(l, ops, cfg.apply))
            && Agree(Run(p, ops, cfg), LedgerRun(l, ops, cfg.apply), map[k := v], cfg.codec, k)
  {
    var base, store := map[k := v], map[k := cfg.codec.encode(k, v)];
    var p, l := StartPipeline(base, store, map[]), StartLedger({}, map[]);
    DeleteBlockLegal(c, k, cfg.apply);
    DeleteBlockRight(c, k, cfg.apply);
    CachedStart(k, v, cfg.codec);
    StartHolds(base, store, map[], {}, cfg.codec);
    KeyRightIff(p, l, DeleteBlock(c, k), cfg, base, k);
  }

  lemma DeletedButStored(p: Pipeline, l: Ledger, codec: Codec, k: string, v: Value)
    requires l.history == [map[k := None]] && l.nCache == 1 && l.nStore == 0 && l.evicted == {}
    requires Agree(p, l, map[k := v], codec, k)
    ensures Lookup(ApplyRounds(map[k := v], l.history), k) == None && LayeredLookup(p, codec, k) == Some(v)
  {
    var base := map[k := v];
    assert l.history[..1] == l.history && Reference(base, l, 0) == base;
    ApplyRoundsAt(base, l.history, k);
    RoundOpsOne<Value>(map[k := None], k);
  }

  // The key is deleted and the block is committed to the live cache, yet a read finds the
  // old value in the live storage.
  lemma StaleReadBetweenCommits(c: StateCell, k: string, v: Value, cfg: Config)
    requires !c.blockBound && Lossless(cfg.codec)
    ensures var p := StartPipeline(map[k := v], map[k := cfg.codec.encode(k, v)], map[]);
            var l, ops := StartLedger({}, map[]), DeleteBlock(c, k);
            && LegalRun(l, ops, cfg.apply) && Runnable(p, ops, cfg)
            && Lookup(ApplyRounds(map[k := v], LedgerRun(l, ops, cfg.apply).history), k) == None
            && LayeredLookup(Run(p, ops, cfg), cfg.codec, k) == Some(v)
  {
    var p := StartPipeline(map[k := v], map[k := cfg.codec.encode(k, v)], map[]);
    var l, ops := StartLedger({}, map[]), DeleteBlock(c, k);
    DeleteBlockLegal(c, k, cfg.apply);
    DeleteBlockAgrees(c, k, v, cfg);
    DeletedButStored(Run(p, ops, cfg), LedgerRun(l, ops, cfg.apply), cfg.codec, k, v);
  }

  // ------------------------------------------------------- lost cells

  // A cell imported between the two precommits of a generation is lost.
  lemma ImportBetweenPrecommitsIsLost(c: StateCell, k: string, v: Val, cfg: Config)
    ensures var p := StartPipeline(map[], map[], map[]);
            var ops := [SyncPrecommit] + ([Import([c], Alone(c, k, v))] + ([AsyncPrecommit] + []));
            && Runnable(p, ops, cfg)
            && Run(p, ops, cfg).heap == Alone(c, k, v) && Placed(Run(p, ops, cfg).cache) == multiset{}
  {
    var p0 := StartPipeline(map[], map[], map[]);
    var p1 := Step(p0, SyncPrecommit, cfg);
    var p2 := Step(p1, Import([c], Alone(c, k, v)), cfg);
    var p3 := Step(p2, AsyncPrecommit, cfg);
    assert p2.heap == Alone(c, k, v) && p2.cache.buffer == [];
    RunCons(p2, AsyncPrecommit, [], cfg);
    RunCons(p1, Import([c], Alone(c, k, v)), [AsyncPrecommit] + [], cfg);
    RunCons(p0, SyncPrecommit, [Import([c], Alone(c, k, v))] + ([AsyncPrecommit] + []), cfg);
    var queue: seq<seq<StateCell>> := [[]];
    assert p3.cache.queue == queue && queue[1..] == [];
  }

  // One cell, imported.
  function OneImport(c: StateCell, k: string, v: Val): (p: Pipeline)
    ensures p.heap == Alone(c, k, v) && p.pending == [c] && WellIndexed(p.heap, p.pending)
    ensures p.cache.buffer == [] && p.storage.buffer == [] && p.exec.buffer == [c]
  {
    SingleGroup(Alone(c, k, v), c, k, v);
    ImportStep(StartPipeline(map[], map[], map[]), [c], Alone(c, k, v))
  }

  lemma OneGeneration(c: StateCell, k: string, v: Val, cfg: Config)
    requires !c.blockBound
    ensures var p := SyncPrecommitStep(FinalizeStep(OneImport(c, k, v), [], cfg.apply));
            && p.heap == Alone(c, k, v) && p.cache.importBuffer == [] && p.cache.queue == []
            && p.cache.buffer == [c] && p.storage.buffer == [c] && p.exec.buffer == [c]
  {
    SingleSurvives(Alone(c, k, v), c, k, v, cfg.apply);
    FilterOne(Unflagged(Alone(c, k, v)), c);
    FilterOne(Persisted(), c);
  }

  lemma GenerationRun(c: StateCell, k: string, v: Val, rest: seq<Op>, cfg: Config)
    requires !c.blockBound
    requires Runnable(SyncPrecommitStep(FinalizeStep(OneImport(c, k, v), [], cfg.apply)), rest, cfg)
    ensures var p := StartPipeline(map[], map[], map[]);
            var ops := [Import([c], Alone(c, k, v))] + ([Finalize([])] + ([SyncPrecommit] + rest));
            && Runnable(p, ops, cfg)
            && Run(p, ops, cfg) == Run(SyncPrecommitStep(FinalizeStep(OneImport(c, k, v), [], cfg.apply)), rest, cfg)
  {
    var p1 := OneImport(c, k, v);
    RunCons(FinalizeStep(p1, [], cfg.apply), SyncPrecommit, rest, cfg);
    RunCons(p1, Finalize([]), [SyncPrecommit] + rest, cfg);
    var p0 := StartPipeline(map[], map[], map[]);
    RunCons(p0, Import([c], Alone(c, k, v)), [Finalize([])] + ([SyncPrecommit] + rest), cfg);
  }

  // A second sync precommit loses the generation the first one made current.
  lemma SecondSyncPrecommitLoses(c: StateCell, k: string, v: Val, cfg: Config)
    requires !c.blockBound
    ensures var p := StartPipeline(map[], map[], map[]);
            var ops := [Import([c], Alone(c, k, v))] + ([Finalize([])] + ([SyncPrecommit] + ([SyncPrecommit] + [])));
            && Runnable(p, ops, cfg)
            && Run(p, ops, cfg).heap == Alone(c, k, v) && Placed(Run(p, ops, cfg).cache) == multiset{}
  {
    var p := SyncPrecommitStep(FinalizeStep(OneImport(c, k, v), [], cfg.apply));
    OneGeneration(c, k, v, cfg);
    RunCons(p, SyncPrecommit, [], cfg);
    GenerationRun(c, k, v, [SyncPrecommit] + [], cfg);
  }
}
