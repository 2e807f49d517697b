/**
 Determinism of whole runs: the order in which the transactions of a round are imported
 does not matter, as long as each transaction's own order is kept.
 */
module Determinism {
  import opened Cells
  import opened DeltaSequences
  import opened Batches
  import opened Finalization
  import opened Pipelines
  import opened Ledgers
  import opened Simulation
  import opened Runs

  // Two runs make the same calls, and before each Finalize both have imported the same
  // cells, each transaction's in the same order; the imports themselves may be cut into
  // batches, interleaved and placed among the other calls differently.
  ghost predicate SameCalls(la: Ledger, a: seq<Op>, lb: Ledger, b: seq<Op>, f: Apply)
    decreases |a| + |b|
  {
    if a != [] && a[0].Import? then SameCalls(LedgerStep(la, a[0], f), a[1..], lb, b, f)
    else if b != [] && b[0].Import? then SameCalls(la, a, LedgerStep(lb, b[0], f), b[1..], f)
    else if a == [] || b == [] then a == b
    else
      && a[0] == b[0]
      && (a[0].Finalize? ==> la.init == lb.init && SameInterleaving(la.pending, lb.pending))
      && SameCalls(LedgerStep(la, a[0], f), a[1..], LedgerStep(lb, b[0], f), b[1..], f)
  }

  // Everything but the imports not yet finalized.
  ghost predicate Alike(la: Ledger, lb: Ledger) {
    la == lb.(init := la.init, pending := la.pending)
  }

  ghost predicate SameStores(p: Pipeline, q: Pipeline) {
    p.cache.cache == q.cache.cache && p.storage.store == q.storage.store
  }

  lemma FinalizeAlike(la: Ledger, lb: Ledger, whitelist: seq<nat>, f: Apply)
    requires Alike(la, lb) && la.init == lb.init && SameInterleaving(la.pending, lb.pending)
    requires WellIndexed(la.init, la.pending) && WellIndexed(lb.init, lb.pending)
    ensures Alike(LedgerStep(la, Finalize(whitelist), f), LedgerStep(lb, Finalize(whitelist), f))
  {
    FinalizeDeterministic(la.init, la.pending, lb.pending, whitelist, f);
  }

  // Commits of alike ledgers do the same to equal stores.
  lemma CommitAlike(p: Pipeline, la: Ledger, q: Pipeline, lb: Ledger, op: Op, cfg: Config)
    requires Sim(p, la, cfg.codec) && Sim(q, lb, cfg.codec)
    requires Alike(la, lb) && SameStores(p, q) && (op.SyncCommit? || op.AsyncCommit?)
    ensures SameStores(Step(p, op, cfg), Step(q, op, cfg))
  {
    if op.SyncCommit? {
      var a, b := CacheCommit(p.cache, p.heap, op.evict).cache, CacheCommit(q.cache, q.heap, op.evict).cache;
      forall k ensures Lookup(a, k) == Lookup(b, k) {
        CacheAfterCommit(p, la, op.evict, k);
        CacheAfterCommit(q, lb, op.evict, k);
      }
      LookupEqual(a, b);
    } else {
      var a, b := StorageCommit(p.storage).store, StorageCommit(q.storage).store;
      forall k ensures Lookup(a, k) == Lookup(b, k) {
        StoreAfterCommit(p, la, cfg.codec, k);
        StoreAfterCommit(q, lb, cfg.codec, k);
      }
      LookupEqual(a, b);
    }
  }

  lemma StepAlike(p: Pipeline, la: Ledger, q: Pipeline, lb: Ledger, op: Op, cfg: Config)
    requires Sim(p, la, cfg.codec) && Sim(q, lb, cfg.codec) && Legal(la, op) && Legal(lb, op)
    requires Alike(la, lb) && SameStores(p, q) && !op.Import?
    requires op.Finalize? ==> la.init == lb.init && SameInterleaving(la.pending, lb.pending)
    ensures Alike(LedgerStep(la, op, cfg.apply), LedgerStep(lb, op, cfg.apply))
    ensures SameStores(Step(p, op, cfg), Step(q, op, cfg))
  {
    if op.Finalize? {
      FinalizeAlike(la, lb, op.whitelist, cfg.apply);
    } else if op.SyncCommit? || op.AsyncCommit? {
      CommitAlike(p, la, q, lb, op, cfg);
    }
  }

  lemma ImportAlike(p: Pipeline, la: Ledger, q: Pipeline, lb: Ledger, op: Op, cfg: Config)
    requires Sim(p, la, cfg.codec) && Legal(la, op) && Alike(la, lb) && SameStores(p, q) && op.Import?
    ensures Alike(LedgerStep(la, op, cfg.apply), lb) && SameStores(Step(p, op, cfg), q)
  {
  }

  // Two legal runs that differ only in how imports interleave leave the same live cache,
  // the same live storage and the same published survivors, key set and then deleted or
  // not.
  lemma {:induction false} RunDeterministic(p: Pipeline, la: Ledger, a: seq<Op>,
                                            q: Pipeline, lb: Ledger, b: seq<Op>, cfg: Config)
    requires Sim(p, la, cfg.codec) && Sim(q, lb, cfg.codec)
    requires LegalRun(la, a, cfg.apply) && LegalRun(lb, b, cfg.apply)
    requires Alike(la, lb) && SameStores(p, q) && SameCalls(la, a, lb, b, cfg.apply)
    ensures Runnable(p, a, cfg) && Runnable(q, b, cfg)
    ensures SameStores(Run(p, a, cfg), Run(q, b, cfg)) && Run(p, a, cfg).exec.local == Run(q, b, cfg).exec.local
    ensures Alike(LedgerRun(la, a, cfg.apply), LedgerRun(lb, b, cfg.apply))
    decreases |a| + |b|
  {
    RunKeeps(p, la, a, cfg);
    RunKeeps(q, lb, b, cfg);
    if a != [] && a[0].Import? {
      StepKeeps(p, la, a[0], cfg);
      ImportAlike(p, la, q, lb, a[0], cfg);
      RunDeterministic(Step(p, a[0], cfg), LedgerStep(la, a[0], cfg.apply), a[1..], q, lb, b, cfg);
    } else if b != [] && b[0].Import? {
      StepKeeps(q, lb, b[0], cfg);
      ImportAlike(q, lb, p, la, b[0], cfg);
      RunDeterministic(p, la, a, Step(q, b[0], cfg), LedgerStep(lb, b[0], cfg.apply), b[1..], cfg);
    } else if a != [] {
      StepKeeps(p, la, a[0], cfg);
      StepKeeps(q, lb, b[0], cfg);
      StepAlike(p, la, q, lb, a[0], cfg);
      RunDeterministic(Step(p, a[0], cfg), LedgerStep(la, a[0], cfg.apply), a[1..],
                       Step(q, b[0], cfg), LedgerStep(lb, b[0], cfg.apply), b[1..], cfg);
    }
  }
}
