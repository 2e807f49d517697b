/**
 No loss, no duplication: where the cells of the live cache writer are, at every
 point of every legal run.
 */
module Conservation {
  import opened Cells
  import opened Seqs
  import opened DeltaSequences
  import opened Finalization
  import opened Pipelines
  import opened Ledgers
  import opened Simulation
  import opened Runs

  // Where the live cache writer holds cells.
  function Placed(w: CacheState): multiset<StateCell> {
    multiset(w.importBuffer) + multiset(w.buffer) + multiset(Flatten(w.queue))
  }

  // Every cell the writer keeps is held exactly once, or it has been committed, or it
  // was flagged and dropped; and no two of these.
  ghost predicate Accounted(placed: multiset<StateCell>, h: Heap, pending: seq<StateCell>, committed: set<StateCell>) {
    && (forall c :: c in placed ==> placed[c] == 1 && c in h && !c.blockBound && c !in committed)
    && (forall c :: c in committed ==> c in h && c !in pending && h[c].path.Some?)
    && (forall c :: c in h && !c.blockBound && c !in placed && c !in committed ==> c !in pending && h[c].path == None)
  }

  ghost predicate Conserved(p: Pipeline, committed: set<StateCell>) {
    Accounted(Placed(p.cache), p.heap, p.pending, committed)
  }

  function CommittedAfter(p: Pipeline, committed: set<StateCell>, op: Op): set<StateCell> {
    if op.SyncCommit? then committed + (set c | c in Flatten(p.cache.queue)) else committed
  }

  lemma AccountImport(placed: multiset<StateCell>, h: Heap, pending: seq<StateCell>, committed: set<StateCell>,
                      batch: seq<StateCell>, init: Heap)
    requires Accounted(placed, h, pending, committed)
    requires Distinct(batch) && init.Keys == (set c | c in batch) && init.Keys !! h.Keys
    ensures Accounted(placed + multiset(Filter(Persisted(), batch)), h + init, pending + batch, committed)
  {
    var kept := Filter(Persisted(), batch);
    var placed' := placed + multiset(kept);
    FilterMembers(Persisted(), batch);
    FilterDistinct(Persisted(), batch);
    forall c | c in placed' ensures placed'[c] == 1 && c in h + init && !c.blockBound && c !in committed {
      DistinctCount(kept, c);
      if c in kept {
        assert c in batch;
      }
    }
    forall c | c in h + init && !c.blockBound && c !in placed' && c !in committed
      ensures c !in pending + batch && (h + init)[c].path == None
    {
      assert c in batch ==> Persisted()(c);
    }
  }

  // Dropping the flagged cells of a buffer.
  lemma AccountDrop(buffer: seq<StateCell>, rest: multiset<StateCell>, h: Heap, pending: seq<StateCell>,
                    committed: set<StateCell>)
    requires Accounted(multiset(buffer) + rest, h, pending, committed)
    requires forall c :: c in buffer ==> c !in pending
    ensures Accounted(multiset(Filter(Unflagged(h), buffer)) + rest, h, pending, committed)
  {
    var live := Filter(Unflagged(h), buffer);
    FilterMembers(Unflagged(h), buffer);
    FilterCount(Unflagged(h), buffer);
    forall c | c in multiset(live) + rest ensures (multiset(live) + rest)[c] == 1 && c in multiset(buffer) + rest {
      assert multiset(live)[c] <= multiset(buffer)[c];
    }
    forall c | c in h && !c.blockBound && c !in multiset(live) + rest && c !in committed
      ensures c !in pending && h[c].path == None
    {
      if c in buffer {
        assert c !in live;
      }
    }
  }

  lemma {:induction false} FilterCount<T>(keep: T -> bool, s: seq<T>)
    ensures multiset(Filter(keep, s)) <= multiset(s)
  {
    if s != [] {
      FilterCount(keep, s[1..]);
      assert s == [s[0]] + s[1..];
    }
  }

  lemma AccountCommit(placed: multiset<StateCell>, flushed: seq<StateCell>, h: Heap, pending: seq<StateCell>,
                      committed: set<StateCell>)
    requires Accounted(placed + multiset(flushed), h, pending, committed)
    requires forall c :: c in flushed ==> c !in pending && c in h && h[c].path.Some?
    ensures Accounted(placed, h, pending, committed + (set c | c in flushed))
  {
    forall c | c in placed ensures placed[c] == 1 && c !in flushed {
      assert (placed + multiset(flushed))[c] == 1;
    }
  }

  lemma ImportConserves(p: Pipeline, l: Ledger, batch: seq<StateCell>, init: Heap, cfg: Config,
                        committed: set<StateCell>)
    requires IndexSim(p, l) && Legal(l, Import(batch, init))
    requires Conserved(p, committed)
    ensures Conserved(Step(p, Import(batch, init), cfg), committed)
  {
    AccountImport(Placed(p.cache), p.heap, p.pending, committed, batch, init);
    var w := CacheImport(p.cache, batch);
    assert Placed(w) == Placed(p.cache) + multiset(Filter(Persisted(), batch));
  }

  lemma FinalizeConserves(p: Pipeline, l: Ledger, whitelist: seq<nat>, cfg: Config, committed: set<StateCell>)
    requires IndexSim(p, l) && ImportSim(p, l)
    requires Conserved(p, committed)
    ensures Conserved(Step(p, Finalize(whitelist), cfg), committed)
  {
    FinalizeFrame(p.heap, p.pending, whitelist, cfg.apply);
  }

  lemma AsyncPrecommitConserves(p: Pipeline, l: Ledger, cfg: Config, committed: set<StateCell>)
    requires IndexSim(p, l) && CurrentSim(p, l)
    requires p.cache.importBuffer == [] && Conserved(p, committed)
    ensures Conserved(Step(p, AsyncPrecommit, cfg), committed)
  {
    var p' := Step(p, AsyncPrecommit, cfg);
    EnqueueAccounted(p.cache, p.heap, p.pending, committed);
    assert p'.cache == CacheEnqueue(p.cache, p.heap) && p'.heap == p.heap && p'.pending == p.pending;
  }

  lemma EnqueueAccounted(w: CacheState, h: Heap, pending: seq<StateCell>, committed: set<StateCell>)
    requires w.importBuffer == [] && Accounted(Placed(w), h, pending, committed)
    requires forall c :: c in w.buffer ==> c !in pending
    ensures Accounted(Placed(CacheEnqueue(w, h)), h, pending, committed)
  {
    var rest := multiset(Flatten(w.queue));
    assert Placed(w) == multiset(w.buffer) + rest;
    AccountDrop(w.buffer, rest, h, pending, committed);
    PlacedAfterEnqueue(w, h);
  }

  lemma PlacedAfterEnqueue(w: CacheState, h: Heap)
    ensures Placed(CacheEnqueue(w, h)) == multiset(Filter(Unflagged(h), w.buffer)) + multiset(Flatten(w.queue))
  {
    FlattenSnoc(w.queue, Filter(Unflagged(h), w.buffer));
  }

  lemma SyncCommitConserves(p: Pipeline, l: Ledger, evict: set<string>, cfg: Config, committed: set<StateCell>)
    requires IndexSim(p, l) && QueueSim(p, l)
    requires Conserved(p, committed)
    ensures Conserved(Step(p, SyncCommit(evict), cfg), CommittedAfter(p, committed, SyncCommit(evict)))
  {
    var w := CacheCommit(p.cache, p.heap, evict);
    assert Placed(p.cache) == Placed(w) + multiset(Flatten(p.cache.queue));
    AccountCommit(Placed(w), Flatten(p.cache.queue), p.heap, p.pending, committed);
    var p' := Step(p, SyncCommit(evict), cfg);
    assert p'.cache == w && p'.heap == p.heap && p'.pending == p.pending;
  }

  lemma SyncPrecommitConserves(p: Pipeline, l: Ledger, cfg: Config, committed: set<StateCell>)
    requires IndexSim(p, l) && p.cache.buffer == []
    requires Conserved(p, committed)
    ensures Conserved(Step(p, SyncPrecommit, cfg), committed)
  {
    assert Placed(CacheReset(p.cache)) == Placed(p.cache);
  }

  lemma StepConserves(p: Pipeline, l: Ledger, op: Op, cfg: Config, committed: set<StateCell>)
    requires Sim(p, l, cfg.codec) && Legal(l, op) && Conserved(p, committed)
    ensures Conserved(Step(p, op, cfg), CommittedAfter(p, committed, op))
  {
    match op
    case Import(batch, init) => ImportConserves(p, l, batch, init, cfg, committed);
    case Finalize(whitelist) => FinalizeConserves(p, l, whitelist, cfg, committed);
    case SyncPrecommit => SyncPrecommitConserves(p, l, cfg, committed);
    case AsyncPrecommit => AsyncPrecommitConserves(p, l, cfg, committed);
    case SyncCommit(evict) => SyncCommitConserves(p, l, evict, cfg, committed);
    case AsyncCommit =>
  }

  ghost function CommittedRun(p: Pipeline, ops: seq<Op>, cfg: Config, committed: set<StateCell>): set<StateCell>
    requires Runnable(p, ops, cfg)
    decreases |ops|
  {
    if ops == [] then committed
    else CommittedRun(Step(p, ops[0], cfg), ops[1..], cfg, CommittedAfter(p, committed, ops[0]))
  }

  // No loss, no duplication, over every legal run.
  lemma {:induction false} RunConserves(p: Pipeline, l: Ledger, ops: seq<Op>, cfg: Config, committed: set<StateCell>)
    requires Sim(p, l, cfg.codec) && LegalRun(l, ops, cfg.apply) && Conserved(p, committed)
    ensures Runnable(p, ops, cfg)
    ensures Conserved(Run(p, ops, cfg), CommittedRun(p, ops, cfg, committed))
    decreases |ops|
  {
    RunKeeps(p, l, ops, cfg);
    if ops != [] {
      StepKeeps(p, l, ops[0], cfg);
      StepConserves(p, l, ops[0], cfg, committed);
      RunConserves(Step(p, ops[0], cfg), LedgerStep(l, ops[0], cfg.apply), ops[1..], cfg,
                   CommittedAfter(p, committed, ops[0]));
    }
  }

  // The ban on imports between the two precommits is exact: the async precommit keeps
  // every unflagged cell it finds if and only if none of them waits in the import
  // buffer, which goes away with the replaced indexer.
  lemma EnqueueLosesImports(w: CacheState, h: Heap)
    requires forall c :: c in Placed(w) ==> Placed(w)[c] == 1 && c in h
    ensures (forall c :: c in Placed(w) && h[c].path.Some? ==> c in Placed(CacheEnqueue(w, h)))
       <==> (forall c :: c in w.importBuffer ==> c in h && h[c].path == None)
  {
    var live := Filter(Unflagged(h), w.buffer);
    PlacedAfterEnqueue(w, h);
    FilterMembers(Unflagged(h), w.buffer);
    forall c | c in w.importBuffer ensures c in Placed(w) && c !in Placed(CacheEnqueue(w, h)) {
      assert multiset(w.importBuffer)[c] >= 1 && Placed(w)[c] == 1;
      assert multiset(w.buffer)[c] == 0 && multiset(Flatten(w.queue))[c] == 0;
      assert c !in w.buffer;
    }
    forall c | c in Placed(w) && h[c].path.Some? && c !in w.importBuffer ensures c in Placed(CacheEnqueue(w, h)) {
      assert c in w.buffer ==> c in live;
    }
  }

  // Nor may a second sync precommit come before the async one: the reset keeps every
  // unflagged cell if and only if the generation it overwrites has none.
  lemma ResetLosesCurrent(w: CacheState, h: Heap)
    requires forall c :: c in Placed(w) ==> Placed(w)[c] == 1 && c in h
    ensures (forall c :: c in Placed(w) && h[c].path.Some? ==> c in Placed(CacheReset(w)))
       <==> (forall c :: c in w.buffer ==> c in h && h[c].path == None)
  {
    forall c | c in w.buffer ensures c in Placed(w) && c !in Placed(CacheReset(w)) {
      assert multiset(w.buffer)[c] >= 1 && Placed(w)[c] == 1;
      assert multiset(w.importBuffer)[c] == 0 && multiset(Flatten(w.queue))[c] == 0;
    }
    forall c | c in Placed(w) && h[c].path.Some? && c !in w.buffer ensures c in Placed(CacheReset(w)) {
      assert c in multiset(w.importBuffer) + multiset(Flatten(w.queue));
    }
  }
}
