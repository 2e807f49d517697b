/**
 A committer object driven through a whole run.  The objects, with their aliased
 cells and arbitrary processing orders, end in the state the pipeline machine gives,
 so what is proved of its runs holds of them.
 */
module Execution {
  import opened Cells
  import opened Pipelines
  import opened Ledgers
  import opened Runs
  import opened LiveCache
  import opened Committer

  ghost function ImportedBy(op: Op): set<StateCell> {
    if op.Import? then op.init.Keys else {}
  }

  ghost function ImportedIn(ops: seq<Op>): set<StateCell> {
    if ops == [] then {} else ImportedBy(ops[0]) + ImportedIn(ops[1..])
  }

  lemma StepDomain(p: Pipeline, op: Op, cfg: Config)
    requires Ready(p, op)
    ensures Step(p, op, cfg).heap.Keys == p.heap.Keys + ImportedBy(op)
  {
  }

  // Cells imported later in a run are not known yet.
  lemma {:induction false} LaterImportsAreNew(p: Pipeline, ops: seq<Op>, cfg: Config)
    requires Runnable(p, ops, cfg)
    ensures ImportedIn(ops) !! p.heap.Keys
    decreases |ops|
  {
    if ops != [] {
      StepDomain(p, ops[0], cfg);
      LaterImportsAreNew(Step(p, ops[0], cfg), ops[1..], cfg);
    }
  }

  // `inits` gives the cells still to be imported the states the run says they have.
  ghost predicate Prepared(ops: seq<Op>, inits: Heap) {
    ops != [] ==>
      && (ops[0].Import? ==> forall c :: c in ops[0].init ==> c in inits && inits[c] == ops[0].init[c])
      && Prepared(ops[1..], inits)
  }

  lemma {:induction false} PreparedWithout(ops: seq<Op>, inits: Heap, gone: set<StateCell>)
    requires Prepared(ops, inits) && gone !! ImportedIn(ops)
    ensures Prepared(ops, inits - gone)
  {
    if ops != [] {
      PreparedWithout(ops[1..], inits, gone);
    }
  }

  method PerformImport(sc: StateCommitter, batch: seq<StateCell>, init: Heap)
    requires sc.Valid() && Ready(sc.State(), Import(batch, init))
    requires Coherent(init)
    modifies sc, sc.cacheWriter.indexer, sc.storageWriter.indexer, sc.execWriter
    ensures sc.Valid() && sc.State() == Step(old(sc.State()), Import(batch, init), sc.Cfg())
    ensures sc.heap.Keys == old(sc.heap).Keys + init.Keys
    ensures sc.Repr() == old(sc.Repr())
  {
    sc.Import(batch, init);
  }

  method PerformCommit(sc: StateCommitter, op: Op)
    requires sc.Valid() && Ready(sc.State(), op) && (op.SyncCommit? || op.AsyncCommit?)
    modifies sc.cacheWriter, sc.storageWriter, sc.execWriter
    ensures sc.Valid() && sc.State() == Step(old(sc.State()), op, sc.Cfg())
    ensures sc.heap.Keys == old(sc.heap).Keys && sc.Repr() <= old(sc.Repr())
  {
    match op
    case SyncCommit(evict) => sc.SyncCommit(evict);
    case AsyncCommit => sc.AsyncCommit();
  }

  method Perform(sc: StateCommitter, op: Op)
    requires sc.Valid() && Ready(sc.State(), op) && (op.Import? ==> Coherent(op.init))
    modifies sc, sc.execWriter, sc.cacheWriter, sc.cacheWriter.indexer
    modifies sc.storageWriter, sc.storageWriter.indexer, sc.heap.Keys
    ensures sc.Valid() && Stepable(old(sc.State()), op) && sc.State() == Step(old(sc.State()), op, sc.Cfg())
    ensures sc.heap.Keys == old(sc.heap).Keys + ImportedBy(op)
    ensures fresh(sc.Repr() - old(sc.Repr()))
  {
    match op
    case Import(batch, init) => PerformImport(sc, batch, init);
    case Finalize(whitelist) => sc.Finalize(whitelist);
    case SyncPrecommit => sc.SyncPrecommit();
    case AsyncPrecommit => sc.AsyncPrecommit();
    case SyncCommit(evict) => PerformCommit(sc, op);
    case AsyncCommit => PerformCommit(sc, op);
  }

  // A call leaves the cells still to be imported as they are.
  method PerformBeside(sc: StateCommitter, op: Op, ghost later: Heap)
    requires sc.Valid() && Ready(sc.State(), op) && (op.Import? ==> Coherent(op.init))
    requires Coherent(later) && later.Keys !! sc.heap.Keys
    modifies sc, sc.execWriter, sc.cacheWriter, sc.cacheWriter.indexer
    modifies sc.storageWriter, sc.storageWriter.indexer, sc.heap.Keys
    ensures Coherent(later)
    ensures sc.Valid() && Stepable(old(sc.State()), op) && sc.State() == Step(old(sc.State()), op, sc.Cfg())
    ensures sc.heap.Keys == old(sc.heap).Keys + ImportedBy(op)
    ensures fresh(sc.Repr() - old(sc.Repr()))
  {
    Perform(sc, op);
  }

  // A run of calls on the objects ends where the machine ends.
  method Execute(sc: StateCommitter, ops: seq<Op>, ghost inits: Heap)
    requires sc.Valid() && Runnable(sc.State(), ops, sc.Cfg())
    requires Prepared(ops, inits) && Coherent(inits) && inits.Keys !! sc.heap.Keys
    modifies sc.Repr(), sc.heap.Keys, inits.Keys
    ensures sc.Valid() && sc.State() == Run(old(sc.State()), ops, sc.Cfg())
    decreases |ops|
  {
    if ops != [] {
      var op, rest := ops[0], ops[1..];
      ghost var next := Step(sc.State(), op, sc.Cfg());
      StepDomain(sc.State(), op, sc.Cfg());
      LaterImportsAreNew(next, rest, sc.Cfg());
      ghost var later := inits - ImportedBy(op);
      PreparedWithout(rest, inits, ImportedBy(op));
      PerformBeside(sc, op, later);
      Execute(sc, rest, later);
    }
  }

  // End to end on the objects: after any legal run, key by key, the cache and the decoded
  // store of the real writers are the reference state of the rounds each has committed
  // exactly if the last commit that touched the key was not one that flushed a set and
  // then a final delete of it.
  method ExecuteBlocks(sc: StateCommitter, ops: seq<Op>, ghost inits: Heap, ghost l: Ledger,
                       ghost base: map<string, Value>)
    requires sc.Valid() && Prepared(ops, inits) && Coherent(inits) && inits.Keys !! sc.heap.Keys
    requires Sim(sc.State(), l, sc.Cfg().codec) && LegalRun(l, ops, sc.apply) && Lossless(sc.Cfg().codec)
    modifies sc.Repr(), sc.heap.Keys, inits.Keys
    ensures sc.Valid() && Counted(LedgerRun(l, ops, sc.apply))
    ensures forall k ::
              CacheAgrees(sc.State(), LedgerRun(l, ops, sc.apply), base, k)
              <==> Right(LastCacheEvent(l, ops, sc.apply, k), CacheAgrees(old(sc.State()), l, base, k))
    ensures forall k ::
              StoreAgrees(sc.State(), LedgerRun(l, ops, sc.apply), base, sc.Cfg().codec, k)
              <==> Right(LastStoreEvent(l, ops, sc.apply, k), StoreAgrees(old(sc.State()), l, base, sc.Cfg().codec, k))
  {
    ghost var p, cfg := sc.State(), sc.Cfg();
    RunKeeps(p, l, ops, cfg);
    KeysExact(p, l, ops, cfg, base);
    Execute(sc, ops, inits);
  }
}
