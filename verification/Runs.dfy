/**
 Whole runs of the pipeline: any number of blocks, each any number of generations,
 in any legal order of calls.
 */
module Runs {
  import opened Cells
  import opened Seqs
  import opened Batches
  import opened Finalization
  import opened Pipelines
  import opened Ledgers
  import opened Simulation

  ghost predicate LegalRun(l: Ledger, ops: seq<Op>, f: Apply)
    decreases |ops|
  {
    ops != [] ==> Legal(l, ops[0]) && LegalRun(LedgerStep(l, ops[0], f), ops[1..], f)
  }

  function LedgerRun(l: Ledger, ops: seq<Op>, f: Apply): Ledger
    decreases |ops|
  {
    if ops == [] then l else LedgerRun(LedgerStep(l, ops[0], f), ops[1..], f)
  }

  // In a legal run no call meets a state it cannot handle: every buffered cell is
  // known, and every queued one still has its path when the block is committed.
  lemma LegalIsReady(p: Pipeline, l: Ledger, op: Op, codec: Codec)
    requires Sim(p, l, codec) && Legal(l, op)
    ensures Ready(p, op)
  {
    assert p.exec.buffer == Front(p.exec.buffer, p.pending) + p.pending;
  }

  // The simulation holds after every legal run.
  lemma {:induction false} RunKeeps(p: Pipeline, l: Ledger, ops: seq<Op>, cfg: Config)
    requires Sim(p, l, cfg.codec) && LegalRun(l, ops, cfg.apply)
    ensures Runnable(p, ops, cfg)
    ensures Sim(Run(p, ops, cfg), LedgerRun(l, ops, cfg.apply), cfg.codec)
    decreases |ops|
  {
    if ops != [] {
      LegalIsReady(p, l, ops[0], cfg.codec);
      StepKeeps(p, l, ops[0], cfg);
      RunKeeps(Step(p, ops[0], cfg), LedgerStep(l, ops[0], cfg.apply), ops[1..], cfg);
    }
  }

  // ------------------------------------------------------- a cell once settled

  lemma StepFrames(p: Pipeline, l: Ledger, op: Op, cfg: Config, c: StateCell)
    requires Sim(p, l, cfg.codec) && Legal(l, op)
    requires c in p.heap && c !in p.pending
    ensures var p' := Step(p, op, cfg); c in p'.heap && c !in p'.pending && p'.heap[c] == p.heap[c]
  {
    if op.Import? {
      ImportFrame(p, l, op.batch, op.init);
    } else if op.Finalize? {
      FinalizeFrame(p.heap, p.pending, op.whitelist, cfg.apply);
    }
  }

  // Both indexes are cleared by Finalize, so no later call changes a cell that a
  // Finalize has been through, whatever the writers still hold of it.
  lemma {:induction false} SettledForever(p: Pipeline, l: Ledger, ops: seq<Op>, cfg: Config, c: StateCell)
    requires Sim(p, l, cfg.codec) && LegalRun(l, ops, cfg.apply)
    requires c in p.heap && c !in p.pending
    ensures Runnable(p, ops, cfg)
    ensures var p' := Run(p, ops, cfg); c in p'.heap && p'.heap[c] == p.heap[c]
    decreases |ops|
  {
    RunKeeps(p, l, ops, cfg);
    if ops != [] {
      StepKeeps(p, l, ops[0], cfg);
      StepFrames(p, l, ops[0], cfg, c);
      SettledForever(Step(p, ops[0], cfg), LedgerStep(l, ops[0], cfg.apply), ops[1..], cfg, c);
    }
  }

  // ------------------------------------------------------- the stores' views

  ghost predicate Lossless(codec: Codec) {
    forall k, v :: codec.decode(k, codec.encode(k, v)) == Some(v)
  }

  function DecodeOpt(codec: Codec, k: string, b: Option<Bytes>): Option<Value> {
    if b.Some? then codec.decode(k, b.value) else None
  }

  // The reference state after the first `n` queued rounds.
  function Reference(base: map<string, Value>, l: Ledger, n: nat): map<string, Value>
    requires n <= |l.history|
  {
    ApplyRounds(base, l.history[..n])
  }

  // The cache has the right value of `k`, or none because it was allowed to drop it.
  ghost predicate CacheAgrees(p: Pipeline, l: Ledger, base: map<string, Value>, k: string)
    requires l.nCache <= |l.history|
  {
    || Lookup(p.cache.cache, k) == Lookup(Reference(base, l, l.nCache), k)
    || (k in l.evicted && k !in p.cache.cache)
  }

  ghost predicate StoreAgrees(p: Pipeline, l: Ledger, base: map<string, Value>, codec: Codec, k: string)
    requires l.nStore <= |l.history|
  {
    DecodeOpt(codec, k, Lookup(p.storage.store, k)) == Lookup(Reference(base, l, l.nStore), k)
  }

  ghost predicate Views(p: Pipeline, l: Ledger, base: map<string, Value>, codec: Codec) {
    Counted(l) && forall k :: Agree(p, l, base, codec, k)
  }

  ghost predicate Counted(l: Ledger) {
    l.nCache <= |l.history| && l.nStore <= |l.history|
  }

  ghost predicate Agree(p: Pipeline, l: Ledger, base: map<string, Value>, codec: Codec, k: string)
    requires Counted(l)
  {
    CacheAgrees(p, l, base, k) && StoreAgrees(p, l, base, codec, k)
  }

  lemma ReferenceSplit(base: map<string, Value>, l: Ledger, n: nat)
    requires n <= |l.history|
    ensures ApplyRounds(base, l.history) == ApplyRounds(Reference(base, l, n), l.history[n..])
  {
    assert l.history == l.history[..n] + l.history[n..];
    ApplyRoundsConcat(base, l.history[..n], l.history[n..]);
  }

  // ------------------------------------------------------- what a commit does to a key

  // A commit leaves a key alone, drops it, or flushes operations on it.
  datatype Event = Untouched | Dropped | Flushed(ops: seq<Val>)

  // Is the key right after the event?  If the key is not touched, as it was.
  ghost predicate Right(e: Event, was: bool) {
    match e
    case Untouched => was
    case Dropped => true
    case Flushed(ops) => !SetThenDeleted(ops)
  }

  function CacheEvent(l: Ledger, op: Op, k: string): Event
    requires Counted(l)
  {
    if !op.SyncCommit? then Untouched
    else if k in op.evict then Dropped
    else
      var ops := RoundOps(l.history[l.nCache..], k);
      if ops == [] then Untouched else Flushed(ops)
  }

  function StoreEvent(l: Ledger, op: Op, k: string): Event
    requires Counted(l)
  {
    if !op.AsyncCommit? then Untouched
    else
      var ops := RoundOps(l.history[l.nStore..], k);
      if ops == [] then Untouched else Flushed(ops)
  }

  // The last thing the commits of a run did to the key.
  function LastCacheEvent(l: Ledger, ops: seq<Op>, f: Apply, k: string): Event
    requires Counted(l)
    decreases |ops|
  {
    if ops == [] then Untouched
    else
      var later := LastCacheEvent(LedgerStep(l, ops[0], f), ops[1..], f, k);
      if later.Untouched? then CacheEvent(l, ops[0], k) else later
  }

  function LastStoreEvent(l: Ledger, ops: seq<Op>, f: Apply, k: string): Event
    requires Counted(l)
    decreases |ops|
  {
    if ops == [] then Untouched
    else
      var later := LastStoreEvent(LedgerStep(l, ops[0], f), ops[1..], f, k);
      if later.Untouched? then StoreEvent(l, ops[0], k) else later
  }

  // What the commits leave at a key, and what the reference does meanwhile.
  lemma CacheAfterCommit(p: Pipeline, l: Ledger, evict: set<string>, k: string)
    requires QueueSim(p, l)
    ensures Lookup(CacheCommit(p.cache, p.heap, evict).cache, k)
         == if k in evict then None else BatchResult(Lookup(p.cache.cache, k), RoundOps(l.history[l.nCache..], k))
  {
    BatchApplyAt(p.cache.cache, EntriesOf(p.heap, Flatten(p.cache.queue)), k);
  }

  lemma StoreAfterCommit(p: Pipeline, l: Ledger, codec: Codec, k: string)
    requires StorageSim(p, l, codec)
    ensures Lookup(StorageCommit(p.storage).store, k)
         == BatchResult(Lookup(p.storage.store, k), EncodeOps(codec, k, RoundOps(l.history[l.nStore..], k)))
  {
    BatchApplyAt(p.storage.store, QueueEntries(p.storage.queue), k);
  }

  lemma ReferenceAfter(l: Ledger, base: map<string, Value>, n: nat, k: string)
    requires n <= |l.history|
    ensures Lookup(ApplyRounds(base, l.history), k)
         == ReplayResult(Lookup(Reference(base, l, n), k), RoundOps(l.history[n..], k))
  {
    ReferenceSplit(base, l, n);
    ApplyRoundsAt(Reference(base, l, n), l.history[n..], k);
  }

  // Whatever the cache held before: if the commit flushes operations on the key and does
  // not drop it, the key is right afterwards if and only if they are not a set followed
  // by a final delete.
  lemma SyncCommitExact(p: Pipeline, l: Ledger, evict: set<string>, cfg: Config, base: map<string, Value>, k: string)
    requires QueueSim(p, l) && Counted(l)
    ensures CacheAgrees(Step(p, SyncCommit(evict), cfg), LedgerStep(l, SyncCommit(evict), cfg.apply), base, k)
       <==> Right(CacheEvent(l, SyncCommit(evict), k), CacheAgrees(p, l, base, k))
  {
    var p', l' := Step(p, SyncCommit(evict), cfg), LedgerStep(l, SyncCommit(evict), cfg.apply);
    assert p'.cache == CacheCommit(p.cache, p.heap, evict) && l'.history == l.history && l'.nCache == |l.history|;
    CacheAfterCommit(p, l, evict, k);
    ReferenceAfter(l, base, l.nCache, k);
    var ops := RoundOps(l.history[l.nCache..], k);
    if ops != [] {
      BatchRight(Lookup(p.cache.cache, k), Lookup(Reference(base, l, l.nCache), k), ops);
    }
    assert l.history[..|l.history|] == l.history;
  }

  lemma {:induction false} EncodedLastSet(codec: Codec, k: string, ops: seq<Val>)
    ensures LastSet(EncodeOps(codec, k, ops)) == EncodeVal(codec, k, LastSet(ops))
  {
    if ops != [] {
      EncodedLastSet(codec, k, ops[1..]);
      assert EncodeOps(codec, k, ops)[1..] == EncodeOps(codec, k, ops[1..]);
    }
  }

  lemma AsyncCommitExact(p: Pipeline, l: Ledger, cfg: Config, base: map<string, Value>, k: string)
    requires StorageSim(p, l, cfg.codec) && Counted(l) && Lossless(cfg.codec)
    ensures StoreAgrees(Step(p, AsyncCommit, cfg), LedgerStep(l, AsyncCommit, cfg.apply), base, cfg.codec, k)
       <==> Right(StoreEvent(l, AsyncCommit, k), StoreAgrees(p, l, base, cfg.codec, k))
  {
    var p', l' := Step(p, AsyncCommit, cfg), LedgerStep(l, AsyncCommit, cfg.apply);
    assert p'.storage == StorageCommit(p.storage) && l'.history == l.history && l'.nStore == |l.history|;
    StoreAfterCommit(p, l, cfg.codec, k);
    ReferenceAfter(l, base, l.nStore, k);
    EncodedLastSet(cfg.codec, k, RoundOps(l.history[l.nStore..], k));
    LastSetMember(RoundOps(l.history[l.nStore..], k));
    assert l.history[..|l.history|] == l.history;
  }

  // Only a commit changes whether a key is right.
  lemma CacheUntouched(p: Pipeline, l: Ledger, op: Op, cfg: Config)
    requires Stepable(p, op) && Counted(l) && !op.SyncCommit?
    ensures var p', l' := Step(p, op, cfg), LedgerStep(l, op, cfg.apply);
            && p'.cache.cache == p.cache.cache && l'.nCache == l.nCache && l'.evicted == l.evicted
            && l.nCache <= |l'.history| && l'.history[..l.nCache] == l.history[..l.nCache]
  {
    match op
    case Import(_, _) =>
    case Finalize(_) =>
    case SyncPrecommit =>
    case AsyncPrecommit =>
    case AsyncCommit =>
  }

  lemma StoreUntouched(p: Pipeline, l: Ledger, op: Op, cfg: Config)
    requires Stepable(p, op) && Counted(l) && !op.AsyncCommit?
    ensures var p', l' := Step(p, op, cfg), LedgerStep(l, op, cfg.apply);
            && p'.storage.store == p.storage.store && l'.nStore == l.nStore
            && l.nStore <= |l'.history| && l'.history[..l.nStore] == l.history[..l.nStore]
  {
    match op
    case Import(_, _) =>
    case Finalize(_) =>
    case SyncPrecommit =>
    case AsyncPrecommit =>
    case SyncCommit(_) =>
  }

  lemma OtherStepsAgree(p: Pipeline, l: Ledger, op: Op, cfg: Config, base: map<string, Value>, k: string)
    requires Stepable(p, op) && Counted(l) && Counted(LedgerStep(l, op, cfg.apply))
    ensures var p', l' := Step(p, op, cfg), LedgerStep(l, op, cfg.apply);
            && (!op.SyncCommit? ==> (CacheAgrees(p', l', base, k) <==> CacheAgrees(p, l, base, k)))
            && (!op.AsyncCommit? ==>
                  (StoreAgrees(p', l', base, cfg.codec, k) <==> StoreAgrees(p, l, base, cfg.codec, k)))
  {
    if !op.SyncCommit? {
      CacheUntouched(p, l, op, cfg);
    }
    if !op.AsyncCommit? {
      StoreUntouched(p, l, op, cfg);
    }
  }

  lemma {:induction false} CacheKeyExact(p: Pipeline, l: Ledger, ops: seq<Op>, cfg: Config,
                                         base: map<string, Value>, k: string)
    requires Sim(p, l, cfg.codec) && LegalRun(l, ops, cfg.apply) && Lossless(cfg.codec)
    ensures Runnable(p, ops, cfg) && Counted(LedgerRun(l, ops, cfg.apply))
    ensures CacheAgrees(Run(p, ops, cfg), LedgerRun(l, ops, cfg.apply), base, k)
       <==> Right(LastCacheEvent(l, ops, cfg.apply, k), CacheAgrees(p, l, base, k))
    decreases |ops|
  {
    RunKeeps(p, l, ops, cfg);
    if ops != [] {
      StepKeeps(p, l, ops[0], cfg);
      StepExact(p, l, ops[0], cfg, base, k);
      var p', l' := Step(p, ops[0], cfg), LedgerStep(l, ops[0], cfg.apply);
      CacheKeyExact(p', l', ops[1..], cfg, base, k);
      var later := LastCacheEvent(l', ops[1..], cfg.apply, k);
      assert LastCacheEvent(l, ops, cfg.apply, k) == if later.Untouched? then CacheEvent(l, ops[0], k) else later;
      assert Run(p, ops, cfg) == Run(p', ops[1..], cfg);
    }
  }

  lemma {:induction false} StoreKeyExact(p: Pipeline, l: Ledger, ops: seq<Op>, cfg: Config,
                                         base: map<string, Value>, k: string)
    requires Sim(p, l, cfg.codec) && LegalRun(l, ops, cfg.apply) && Lossless(cfg.codec)
    ensures Runnable(p, ops, cfg) && Counted(LedgerRun(l, ops, cfg.apply))
    ensures StoreAgrees(Run(p, ops, cfg), LedgerRun(l, ops, cfg.apply), base, cfg.codec, k)
       <==> Right(LastStoreEvent(l, ops, cfg.apply, k), StoreAgrees(p, l, base, cfg.codec, k))
    decreases |ops|
  {
    RunKeeps(p, l, ops, cfg);
    if ops != [] {
      StepKeeps(p, l, ops[0], cfg);
      StepExact(p, l, ops[0], cfg, base, k);
      var p', l' := Step(p, ops[0], cfg), LedgerStep(l, ops[0], cfg.apply);
      StoreKeyExact(p', l', ops[1..], cfg, base, k);
      var later := LastStoreEvent(l', ops[1..], cfg.apply, k);
      assert LastStoreEvent(l, ops, cfg.apply, k) == if later.Untouched? then StoreEvent(l, ops[0], k) else later;
      assert Run(p, ops, cfg) == Run(p', ops[1..], cfg);
    }
  }

  // For every legal run and every key: afterwards the live cache is right about the key,
  // or was allowed to drop it, if and only if the last commit to touch the key dropped it
  // or did not flush a set followed by a final delete; and the same for the live storage.
  lemma KeyExact(p: Pipeline, l: Ledger, ops: seq<Op>, cfg: Config, base: map<string, Value>, k: string)
    requires Sim(p, l, cfg.codec) && LegalRun(l, ops, cfg.apply) && Lossless(cfg.codec)
    ensures Runnable(p, ops, cfg) && Counted(LedgerRun(l, ops, cfg.apply))
    ensures CacheAgrees(Run(p, ops, cfg), LedgerRun(l, ops, cfg.apply), base, k)
       <==> Right(LastCacheEvent(l, ops, cfg.apply, k), CacheAgrees(p, l, base, k))
    ensures StoreAgrees(Run(p, ops, cfg), LedgerRun(l, ops, cfg.apply), base, cfg.codec, k)
       <==> Right(LastStoreEvent(l, ops, cfg.apply, k), StoreAgrees(p, l, base, cfg.codec, k))
  {
    CacheKeyExact(p, l, ops, cfg, base, k);
    StoreKeyExact(p, l, ops, cfg, base, k);
  }

  lemma KeysExact(p: Pipeline, l: Ledger, ops: seq<Op>, cfg: Config, base: map<string, Value>)
    requires Sim(p, l, cfg.codec) && LegalRun(l, ops, cfg.apply) && Lossless(cfg.codec)
    ensures Runnable(p, ops, cfg) && Counted(LedgerRun(l, ops, cfg.apply))
    ensures forall k ::
              CacheAgrees(Run(p, ops, cfg), LedgerRun(l, ops, cfg.apply), base, k)
              <==> Right(LastCacheEvent(l, ops, cfg.apply, k), CacheAgrees(p, l, base, k))
    ensures forall k ::
              StoreAgrees(Run(p, ops, cfg), LedgerRun(l, ops, cfg.apply), base, cfg.codec, k)
              <==> Right(LastStoreEvent(l, ops, cfg.apply, k), StoreAgrees(p, l, base, cfg.codec, k))
  {
    RunKeeps(p, l, ops, cfg);
    forall k
      ensures CacheAgrees(Run(p, ops, cfg), LedgerRun(l, ops, cfg.apply), base, k)
         <==> Right(LastCacheEvent(l, ops, cfg.apply, k), CacheAgrees(p, l, base, k))
      ensures StoreAgrees(Run(p, ops, cfg), LedgerRun(l, ops, cfg.apply), base, cfg.codec, k)
         <==> Right(LastStoreEvent(l, ops, cfg.apply, k), StoreAgrees(p, l, base, cfg.codec, k))
    {
      KeyExact(p, l, ops, cfg, base, k);
    }
  }

  lemma StepExact(p: Pipeline, l: Ledger, op: Op, cfg: Config, base: map<string, Value>, k: string)
    requires Sim(p, l, cfg.codec) && Legal(l, op) && Lossless(cfg.codec)
    ensures var p', l' := Step(p, op, cfg), LedgerStep(l, op, cfg.apply);
            && (CacheAgrees(p', l', base, k) <==> Right(CacheEvent(l, op, k), CacheAgrees(p, l, base, k)))
            && (StoreAgrees(p', l', base, cfg.codec, k)
                <==> Right(StoreEvent(l, op, k), StoreAgrees(p, l, base, cfg.codec, k)))
  {
    OtherStepsAgree(p, l, op, cfg, base, k);
    if op.SyncCommit? {
      SyncCommitExact(p, l, op.evict, cfg, base, k);
    } else if op.AsyncCommit? {
      AsyncCommitExact(p, l, cfg, base, k);
    }
  }

  // No commit that touched the key last flushed a set and then a final delete of it.
  ghost predicate KeyRight(l: Ledger, ops: seq<Op>, f: Apply, k: string)
    requires Counted(l)
  {
    Right(LastCacheEvent(l, ops, f, k), true) && Right(LastStoreEvent(l, ops, f, k), true)
  }

  lemma KeyRightIff(p: Pipeline, l: Ledger, ops: seq<Op>, cfg: Config, base: map<string, Value>, k: string)
    requires Sim(p, l, cfg.codec) && LegalRun(l, ops, cfg.apply) && Lossless(cfg.codec)
    requires Agree(p, l, base, cfg.codec, k)
    ensures Runnable(p, ops, cfg) && Counted(LedgerRun(l, ops, cfg.apply))
    ensures Agree(Run(p, ops, cfg), LedgerRun(l, ops, cfg.apply), base, cfg.codec, k)
       <==> KeyRight(l, ops, cfg.apply, k)
  {
    KeyExact(p, l, ops, cfg, base, k);
  }

  // End to end: from stores that agree with the reference, a legal run ends in stores that
  // do, each round's merged value per path applied in order, exactly if all keys are right.
  lemma EndToEnd(p: Pipeline, l: Ledger, ops: seq<Op>, cfg: Config, base: map<string, Value>)
    requires Sim(p, l, cfg.codec) && LegalRun(l, ops, cfg.apply) && Lossless(cfg.codec)
    requires Views(p, l, base, cfg.codec)
    ensures Runnable(p, ops, cfg)
    ensures Views(Run(p, ops, cfg), LedgerRun(l, ops, cfg.apply), base, cfg.codec)
       <==> forall k :: KeyRight(l, ops, cfg.apply, k)
  {
    RunKeeps(p, l, ops, cfg);
    var p', l' := Run(p, ops, cfg), LedgerRun(l, ops, cfg.apply);
    forall k ensures Agree(p', l', base, cfg.codec, k) <==> KeyRight(l, ops, cfg.apply, k) {
      KeyRightIff(p, l, ops, cfg, base, k);
    }
  }
}
