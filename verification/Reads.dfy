/**
 What a read sees: the execution cache, then the live cache, then the decoded live
 storage.
 */
module Reads {
  import opened Cells
  import opened Batches
  import opened Finalization
  import opened Pipelines
  import opened Ledgers
  import opened Runs

  // ------------------------------------------------------- where runs start

  function StartPipeline(cache: map<string, Value>, store: map<string, Bytes>,
                         local: map<string, StateCell>): Pipeline
  {
    Pipeline(map[], [], CacheState([], [], [], cache), StorageState([], [], [], store), ExecState([], local))
  }

  function StartLedger(absent: set<string>, local: map<string, StateCell>): Ledger {
    Ledger(map[], [], [], [], false, [], 0, 0, absent, local, [], [], 0)
  }

  // New writers are where runs start, whatever the stores and the local cells hold.
  lemma StartHolds(cache: map<string, Value>, store: map<string, Bytes>, local: map<string, StateCell>,
                   absent: set<string>, codec: Codec)
    ensures Sim(StartPipeline(cache, store, local), StartLedger(absent, local), codec)
    ensures Tidy(StartLedger(absent, local))
  {
    var p := StartPipeline(cache, store, local);
    assert QueueEntries(p.storage.queue) == [];
    assert EndsIn(p.cache.importBuffer, Kept(p)) && Front(p.cache.importBuffer, Kept(p)) == [];
    assert EndsIn(p.exec.buffer, p.pending) && Front(p.exec.buffer, p.pending) == [];
  }

  // The stores agree with the reference at the start if the storage holds it, encoded, and
  // the cache some of its values.
  lemma StartViews(cache: map<string, Value>, store: map<string, Bytes>, local: map<string, StateCell>,
                   base: map<string, Value>, codec: Codec)
    requires forall k :: DecodeOpt(codec, k, Lookup(store, k)) == Lookup(base, k)
    requires forall k :: k in cache ==> k in base && cache[k] == base[k]
    ensures Views(StartPipeline(cache, store, local), StartLedger(base.Keys - cache.Keys, local), base, codec)
  {
    var p, l := StartPipeline(cache, store, local), StartLedger(base.Keys - cache.Keys, local);
    assert Reference(base, l, 0) == base;
    forall k ensures Agree(p, l, base, codec, k) {
      assert DecodeOpt(codec, k, Lookup(store, k)) == Lookup(base, k);
    }
  }

  // ------------------------------------------------------- cache and storage

  // The object cache in front of the execution storage.
  function LayeredLookup(p: Pipeline, codec: Codec, k: string): Option<Value> {
    if k in p.cache.cache then Some(p.cache.cache[k])
    else DecodeOpt(codec, k, Lookup(p.storage.store, k))
  }

  // Where both layers are right, whatever was dropped from the cache, a read gives the
  // reference value once both commits have happened.
  lemma LayeredRead(p: Pipeline, l: Ledger, codec: Codec, base: map<string, Value>, k: string)
    requires Counted(l) && Agree(p, l, base, codec, k) && l.nCache == l.nStore
    ensures LayeredLookup(p, codec, k) == Lookup(Reference(base, l, l.nCache), k)
  {
  }

  // Whether the layer that answers for the key at the end of a run is right about it, told
  // from the last commit to touch the key there.
  ghost predicate LayersRight(p: Pipeline, l: Ledger, ops: seq<Op>, cfg: Config, base: map<string, Value>, k: string)
    requires Counted(l) && Runnable(p, ops, cfg)
  {
    if k in Run(p, ops, cfg).cache.cache
    then Right(LastCacheEvent(l, ops, cfg.apply, k), CacheAgrees(p, l, base, k))
    else Right(LastStoreEvent(l, ops, cfg.apply, k), StoreAgrees(p, l, base, cfg.codec, k))
  }

  // After every legal run the read gives the reference value exactly if that layer is; for
  // keys the cache does not hold, once the live storage has caught up.
  lemma RunLayeredRead(p: Pipeline, l: Ledger, ops: seq<Op>, cfg: Config, base: map<string, Value>, k: string)
    requires Sim(p, l, cfg.codec) && LegalRun(l, ops, cfg.apply) && Lossless(cfg.codec)
    ensures Runnable(p, ops, cfg) && Counted(LedgerRun(l, ops, cfg.apply))
    ensures var p', l' := Run(p, ops, cfg), LedgerRun(l, ops, cfg.apply);
            k in p'.cache.cache || l'.nStore == l'.nCache ==>
              (LayeredLookup(p', cfg.codec, k) == Lookup(Reference(base, l', l'.nCache), k)
               <==> LayersRight(p, l, ops, cfg, base, k))
  {
    KeyExact(p, l, ops, cfg, base, k);
  }

  // Between SyncCommit and AsyncCommit it does so exactly for the keys the cache holds
  // and those which the rounds not yet flushed leave as they were.
  lemma ReadBetweenCommits(p: Pipeline, l: Ledger, codec: Codec, base: map<string, Value>, k: string)
    requires Counted(l) && Agree(p, l, base, codec, k) && l.nStore <= l.nCache
    ensures var was := Lookup(Reference(base, l, l.nStore), k);
            && (LayeredLookup(p, codec, k) == Lookup(Reference(base, l, l.nCache), k)
                <==> k in p.cache.cache || ReplayResult(was, RoundOps(l.history[l.nStore..l.nCache], k)) == was)
  {
    var mid := l.history[l.nStore..l.nCache];
    assert l.history[..l.nCache] == l.history[..l.nStore] + mid;
    ApplyRoundsConcat(base, l.history[..l.nStore], mid);
    ApplyRoundsAt(Reference(base, l, l.nStore), mid, k);
  }

  // ------------------------------------------------------- the execution cache

  // Two records of the same rounds, the survivors and their values, seen at one path.
  lemma {:induction false} CarriedOps(p: Pipeline, cells: seq<Round<StateCell>>, values: seq<Round<Value>>, k: string)
    requires |cells| == |values| && forall i :: 0 <= i < |cells| ==> Carries(p, cells[i], values[i])
    ensures |RoundOps(cells, k)| == |RoundOps(values, k)|
    ensures forall j :: 0 <= j < |RoundOps(cells, k)| ==>
              var c := RoundOps(cells, k)[j];
              c.Some? && c.value in p.heap && p.heap[c.value] == CellState(Some(k), RoundOps(values, k)[j])
  {
    if cells != [] {
      assert Carries(p, cells[0], values[0]);
      forall i | 0 <= i < |cells| - 1 ensures Carries(p, cells[1..][i], values[1..][i]) {
        assert Carries(p, cells[i + 1], values[i + 1]);
      }
      CarriedOps(p, cells[1..], values[1..], k);
    }
  }

  // After every legal run the execution cache maps each path to the survivor of the last
  // published round that touched it, which still has the path and the value merged for
  // it in that round; paths no round touched keep the cell they had.
  lemma PublishedSurvivor(p: Pipeline, l: Ledger, codec: Codec, k: string)
    requires Sim(p, l, codec)
    ensures var ops := RoundOps(l.survivors[..l.published], k);
            Lookup(p.exec.local, k) == if ops == [] then Lookup(l.local, k) else ops[|ops| - 1]
    ensures var values := RoundOps(l.values[..l.published], k);
            values != [] ==>
              && k in p.exec.local && p.exec.local[k] in p.heap
              && p.heap[p.exec.local[k]] == CellState(Some(k), values[|values| - 1])
    ensures RoundOps(l.values[..l.published], k) == [] <==> RoundOps(l.survivors[..l.published], k) == []
  {
    ApplyRoundsAt(l.local, l.survivors[..l.published], k);
    PublishedCarries(p, l, k);
  }

  lemma PublishedCarries(p: Pipeline, l: Ledger, k: string)
    requires ValueSim(p, l) && l.published <= |l.survivors|
    ensures var cells, values := RoundOps(l.survivors[..l.published], k), RoundOps(l.values[..l.published], k);
            && |cells| == |values|
            && forall j :: 0 <= j < |cells| ==>
                 && cells[j].Some? && cells[j].value in p.heap
                 && p.heap[cells[j].value] == CellState(Some(k), values[j])
  {
    var cells, values := l.survivors[..l.published], l.values[..l.published];
    forall i | 0 <= i < |cells| ensures Carries(p, cells[i], values[i]) {
      assert Carries(p, l.survivors[i], l.values[i]);
    }
    CarriedOps(p, cells, values, k);
  }

  // A commit of the sync writers leaves no local cell: reads go to the live cache again.
  lemma CommitUncovers(p: Pipeline, l: Ledger, evict: set<string>, cfg: Config, k: string)
    requires Sim(p, l, cfg.codec) && Legal(l, SyncCommit(evict))
    ensures var p', l' := Step(p, SyncCommit(evict), cfg), LedgerStep(l, SyncCommit(evict), cfg.apply);
            && k !in p'.exec.local && k !in l'.local && p'.exec.buffer == []
            && FrontLookup(p', cfg.codec, k) == LayeredLookup(p', cfg.codec, k)
  {
  }

  // ------------------------------------------------------- all three layers

  // The rounds precommitted since the cache was last committed.
  function Unflushed(l: Ledger): seq<Round<Value>>
    requires l.nCache <= |l.history|
  {
    l.history[l.nCache..] + l.synced
  }

  // The storage writers' share of a round.
  ghost predicate ShareOf(part: Round<Value>, whole: Round<Value>) {
    forall k :: k in part ==> k in whole && part[k] == whole[k]
  }

  // The storage writers and the execution cache have seen the same rounds of the block.
  ghost predicate Tidy(l: Ledger) {
    && Counted(l)
    && (!l.awaitingAsync ==> l.synced == [])
    && |Unflushed(l)| == l.published <= |l.values| == l.published + |l.staged| == |l.survivors|
    && forall i :: 0 <= i < |l.values| ==> ShareOf((Unflushed(l) + l.staged)[i], l.values[i])
  }

  // A block is not committed between a sync precommit and its async precommit.
  ghost predicate WholeBlocks(l: Ledger, ops: seq<Op>, f: Apply)
    decreases |ops|
  {
    ops != [] ==> (ops[0].SyncCommit? ==> !l.awaitingAsync) && WholeBlocks(LedgerStep(l, ops[0], f), ops[1..], f)
  }

  lemma RoundIsShare(l: Ledger, whitelist: seq<nat>, f: Apply)
    ensures ShareOf(RoundOf(l.init, l.pending, whitelist, f), ValuesOf(l.init, l.pending, whitelist, f))
  {
  }

  lemma FinalizeTidy(l: Ledger, whitelist: seq<nat>, f: Apply)
    requires Tidy(l)
    ensures Tidy(LedgerStep(l, Finalize(whitelist), f))
  {
    var l' := LedgerStep(l, Finalize(whitelist), f);
    var rounds, rounds' := Unflushed(l) + l.staged, Unflushed(l') + l'.staged;
    RoundIsShare(l, whitelist, f);
    assert rounds' == rounds + [RoundOf(l.init, l.pending, whitelist, f)];
    forall i | 0 <= i < |l'.values| ensures ShareOf(rounds'[i], l'.values[i]) {
      if i < |l.values| {
        assert ShareOf(rounds[i], l.values[i]);
      }
    }
  }

  lemma SyncPrecommitTidy(l: Ledger, f: Apply)
    requires Tidy(l) && Legal(l, SyncPrecommit)
    ensures Tidy(LedgerStep(l, SyncPrecommit, f))
  {
    var l' := LedgerStep(l, SyncPrecommit, f);
    assert Unflushed(l') == Unflushed(l) + l.staged && l'.staged == [];
    assert Unflushed(l') + l'.staged == Unflushed(l) + l.staged;
  }

  lemma AsyncPrecommitTidy(l: Ledger, f: Apply)
    requires Tidy(l)
    ensures Tidy(LedgerStep(l, AsyncPrecommit, f))
  {
    var l' := LedgerStep(l, AsyncPrecommit, f);
    assert l'.history[l'.nCache..] == l.history[l.nCache..] + l.synced && l'.synced == [];
    assert Unflushed(l') == Unflushed(l);
  }

  lemma StepTidy(l: Ledger, op: Op, f: Apply)
    requires Tidy(l) && Legal(l, op) && (op.SyncCommit? ==> !l.awaitingAsync)
    ensures Tidy(LedgerStep(l, op, f))
  {
    match op
    case Import(_, _) =>
    case Finalize(whitelist) => FinalizeTidy(l, whitelist, f);
    case SyncPrecommit => SyncPrecommitTidy(l, f);
    case AsyncPrecommit => AsyncPrecommitTidy(l, f);
    case SyncCommit(_) =>
    case AsyncCommit =>
  }

  lemma {:induction false} RunTidy(l: Ledger, ops: seq<Op>, f: Apply)
    requires Tidy(l) && LegalRun(l, ops, f) && WholeBlocks(l, ops, f)
    ensures Tidy(LedgerRun(l, ops, f))
    decreases |ops|
  {
    if ops != [] {
      StepTidy(l, ops[0], f);
      RunTidy(LedgerStep(l, ops[0], f), ops[1..], f);
    }
  }

  // The local cell if there is one, then the live cache, then the live storage.
  function FrontLookup(p: Pipeline, codec: Codec, k: string): Val {
    if k in p.exec.local && p.exec.local[k] in p.heap then p.heap[p.exec.local[k]].value
    else LayeredLookup(p, codec, k)
  }

  // A path all of whose published survivors pass the storage filter.
  ghost predicate Stored(l: Ledger, k: string)
    requires Tidy(l)
  {
    forall i :: 0 <= i < l.published && k in l.values[i] ==> k in Unflushed(l)[i]
  }

  lemma {:induction false} SharedOps(parts: seq<Round<Value>>, wholes: seq<Round<Value>>, k: string)
    requires |parts| == |wholes|
    requires forall i :: 0 <= i < |parts| ==> ShareOf(parts[i], wholes[i]) && (k in wholes[i] ==> k in parts[i])
    ensures RoundOps(parts, k) == RoundOps(wholes, k)
  {
    if parts != [] {
      assert ShareOf(parts[0], wholes[0]);
      forall i | 0 <= i < |parts| - 1
        ensures ShareOf(parts[1..][i], wholes[1..][i]) && (k in wholes[1..][i] ==> k in parts[1..][i])
      {
        assert ShareOf(parts[i + 1], wholes[i + 1]);
      }
      SharedOps(parts[1..], wholes[1..], k);
    }
  }

  lemma PublishedOps(l: Ledger, k: string)
    requires Tidy(l) && Stored(l, k)
    ensures RoundOps(Unflushed(l), k) == RoundOps(l.values[..l.published], k)
  {
    var parts, wholes := Unflushed(l), l.values[..l.published];
    forall i | 0 <= i < |parts| ensures ShareOf(parts[i], wholes[i]) && (k in wholes[i] ==> k in parts[i]) {
      assert ShareOf((parts + l.staged)[i], l.values[i]);
    }
    SharedOps(parts, wholes, k);
  }

  lemma PublishedReference(l: Ledger, base: map<string, Value>, k: string)
    requires l.nCache <= |l.history|
    ensures Lookup(ApplyRounds(base, l.history + l.synced), k)
         == ReplayResult(Lookup(Reference(base, l, l.nCache), k), RoundOps(Unflushed(l), k))
  {
    assert l.history + l.synced == l.history[..l.nCache] + Unflushed(l);
    ApplyRoundsConcat(base, l.history[..l.nCache], Unflushed(l));
    ApplyRoundsAt(Reference(base, l, l.nCache), Unflushed(l), k);
  }

  // From a sync precommit to the block's commit, a read of a stored path gives the
  // reference over every published round, if and only if one of them touched the path or
  // the two stores already gave the reference of the blocks before.
  lemma PublishedRead(p: Pipeline, l: Ledger, codec: Codec, base: map<string, Value>, k: string)
    requires Sim(p, l, codec) && Tidy(l) && Stored(l, k) && k !in l.local
    ensures FrontLookup(p, codec, k) == Lookup(ApplyRounds(base, l.history + l.synced), k)
       <==> RoundOps(Unflushed(l), k) != [] || LayeredLookup(p, codec, k) == Lookup(Reference(base, l, l.nCache), k)
  {
    PublishedOps(l, k);
    PublishedSurvivor(p, l, codec, k);
    PublishedReference(l, base, k);
  }

  // So it is after every legal run that does not commit a block halfway; and unless the
  // live storage is behind, the run itself tells whether the layers below are right.
  lemma RunRead(p: Pipeline, l: Ledger, ops: seq<Op>, cfg: Config, base: map<string, Value>, k: string)
    requires Sim(p, l, cfg.codec) && Tidy(l) && LegalRun(l, ops, cfg.apply) && WholeBlocks(l, ops, cfg.apply)
    requires Lossless(cfg.codec)
    ensures Runnable(p, ops, cfg) && Tidy(LedgerRun(l, ops, cfg.apply))
    ensures var p', l' := Run(p, ops, cfg), LedgerRun(l, ops, cfg.apply);
            Stored(l', k) && k !in l'.local && (k in p'.cache.cache || l'.nStore == l'.nCache) ==>
              (FrontLookup(p', cfg.codec, k) == Lookup(ApplyRounds(base, l'.history + l'.synced), k)
               <==> RoundOps(Unflushed(l'), k) != [] || LayersRight(p, l, ops, cfg, base, k))
  {
    RunKeeps(p, l, ops, cfg);
    RunTidy(l, ops, cfg.apply);
    RunLayeredRead(p, l, ops, cfg, base, k);
    var p', l' := Run(p, ops, cfg), LedgerRun(l, ops, cfg.apply);
    if Stored(l', k) && k !in l'.local {
      PublishedRead(p', l', cfg.codec, base, k);
    }
  }
}
