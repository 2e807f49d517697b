/**
 Every legal step of the pipeline keeps the simulation with the ledger.
 */
module Simulation {
  import opened Cells
  import opened Seqs
  import opened Batches
  import opened Finalization
  import opened Pipelines
  import opened Ledgers

  // ------------------------------------------------------------ Import

  // Newly imported cells are strangers to every buffer and leave the old cells alone.
  lemma ImportFrame(p: Pipeline, l: Ledger, batch: seq<StateCell>, init: Heap)
    requires IndexSim(p, l) && Legal(l, Import(batch, init))
    ensures forall c :: c in p.heap ==> (p.heap + init)[c] == p.heap[c] && c !in batch
    ensures forall c :: c in batch ==> c in p.heap + init && (p.heap + init)[c].path.Some?
  {
  }

  lemma ImportIndex(p: Pipeline, l: Ledger, batch: seq<StateCell>, init: Heap, cfg: Config)
    requires IndexSim(p, l) && Legal(l, Import(batch, init))
    ensures IndexSim(Step(p, Import(batch, init), cfg), LedgerStep(l, Import(batch, init), cfg.apply))
  {
    ImportFrame(p, l, batch, init);
    DistinctConcat(p.pending, batch);
  }

  lemma FrontAppend(buffer: seq<StateCell>, tail: seq<StateCell>, more: seq<StateCell>)
    requires EndsIn(buffer, tail)
    ensures EndsIn(buffer + more, tail + more) && Front(buffer + more, tail + more) == Front(buffer, tail)
  {
    assert (buffer + more)[..|buffer| - |tail|] == buffer[..|buffer| - |tail|];
  }

  lemma ImportBuffers(p: Pipeline, l: Ledger, batch: seq<StateCell>, init: Heap, cfg: Config)
    requires IndexSim(p, l) && ImportSim(p, l) && Legal(l, Import(batch, init))
    ensures ImportSim(Step(p, Import(batch, init), cfg), LedgerStep(l, Import(batch, init), cfg.apply))
  {
    var p' := Step(p, Import(batch, init), cfg);
    ImportFrame(p, l, batch, init);
    FilterConcat(Persisted(), p.pending, batch);
    var front := Front(p.cache.importBuffer, Kept(p));
    FrontAppend(p.cache.importBuffer, Kept(p), Filter(Persisted(), batch));
    EntriesAgree(p.heap, p'.heap, front);
  }

  lemma ImportExecBuffer(p: Pipeline, l: Ledger, batch: seq<StateCell>, init: Heap, cfg: Config)
    requires IndexSim(p, l) && ExecSim(p, l) && Legal(l, Import(batch, init))
    ensures ExecSim(Step(p, Import(batch, init), cfg), LedgerStep(l, Import(batch, init), cfg.apply))
  {
    var p' := Step(p, Import(batch, init), cfg);
    ImportFrame(p, l, batch, init);
    var front := Front(p.exec.buffer, p.pending);
    FrontAppend(p.exec.buffer, p.pending, batch);
    EntriesAgree(p.heap, p'.heap, front);
  }

  lemma ImportValues(p: Pipeline, l: Ledger, batch: seq<StateCell>, init: Heap, cfg: Config)
    requires IndexSim(p, l) && ValueSim(p, l) && Legal(l, Import(batch, init))
    ensures ValueSim(Step(p, Import(batch, init), cfg), LedgerStep(l, Import(batch, init), cfg.apply))
  {
    var p' := Step(p, Import(batch, init), cfg);
    ImportFrame(p, l, batch, init);
    forall i | 0 <= i < |l.survivors| ensures Carries(p', l.survivors[i], l.values[i]) {
      assert Carries(p, l.survivors[i], l.values[i]);
    }
  }

  lemma ImportKeeps(p: Pipeline, l: Ledger, batch: seq<StateCell>, init: Heap, cfg: Config)
    requires Sim(p, l, cfg.codec) && Legal(l, Import(batch, init))
    ensures Sim(Step(p, Import(batch, init), cfg), LedgerStep(l, Import(batch, init), cfg.apply), cfg.codec)
  {
    var p' := Step(p, Import(batch, init), cfg);
    ImportFrame(p, l, batch, init);
    ImportIndex(p, l, batch, init, cfg);
    ImportBuffers(p, l, batch, init, cfg);
    ImportExecBuffer(p, l, batch, init, cfg);
    ImportValues(p, l, batch, init, cfg);
    EntriesAgree(p.heap, p'.heap, p.cache.buffer);
    EntriesAgree(p.heap, p'.heap, Flatten(p.cache.queue));
    FilterAll(Unflagged(p'.heap), batch);
  }

  // ------------------------------------------------------------ Finalize

  // A buffer's settled front keeps its entries; its pending tail adds the new round.
  lemma FinalizeTail<V>(before: seq<Entry<V>>, rounds: seq<Round<V>>, added: seq<Entry<V>>, round: Round<V>)
    requires Writes(before, rounds)
    requires forall k :: KeyOps(added, k) == RoundOp(round, k)
    ensures Writes(before + added, rounds + [round])
  {
    forall k ensures KeyOps(added, k) == RoundOps([round], k) {
      RoundOpsOne(round, k);
    }
    WritesConcat(before, rounds, added, [round]);
  }

  // What the pending cells write after the call is the ledger's round.
  lemma PendingWrites(p: Pipeline, l: Ledger, whitelist: seq<nat>, cfg: Config)
    requires IndexSim(p, l)
    ensures forall k ::
              KeyOps(EntriesOf(FinalizedHeap(p.heap, p.pending, whitelist, cfg.apply), Kept(p)), k)
              == RoundOp(RoundOf(l.init, l.pending, whitelist, cfg.apply), k)
    ensures forall k ::
              KeyOps(CellEntriesOf(FinalizedHeap(p.heap, p.pending, whitelist, cfg.apply), p.pending), k)
              == RoundOp(SurvivorsOf(l.init, l.pending, whitelist), k)
  {
    var h' := FinalizedHeap(p.heap, p.pending, whitelist, cfg.apply);
    forall k
      ensures KeyOps(EntriesOf(h', Kept(p)), k) == RoundOp(RoundOf(l.init, l.pending, whitelist, cfg.apply), k)
      ensures KeyOps(CellEntriesOf(h', p.pending), k) == RoundOp(SurvivorsOf(l.init, l.pending, whitelist), k)
    {
      RoundWritten(p.heap, p.pending, whitelist, cfg.apply, k);
      SurvivorsWritten(p.heap, p.pending, whitelist, cfg.apply, k);
      RoundAgree(p.heap, l.init, p.pending, whitelist, cfg.apply, k);
    }
  }

  lemma ImportBufferWrites(p: Pipeline, l: Ledger, whitelist: seq<nat>, cfg: Config)
    requires IndexSim(p, l) && ImportSim(p, l)
    ensures Writes(EntriesOf(FinalizedHeap(p.heap, p.pending, whitelist, cfg.apply), p.cache.importBuffer),
                   l.staged + [RoundOf(l.init, l.pending, whitelist, cfg.apply)])
  {
    var h' := FinalizedHeap(p.heap, p.pending, whitelist, cfg.apply);
    var front := Front(p.cache.importBuffer, Kept(p));
    FinalizeFrame(p.heap, p.pending, whitelist, cfg.apply);
    EntriesAgree(p.heap, h', front);
    EntriesConcat(h', front, Kept(p));
    PendingWrites(p, l, whitelist, cfg);
    FinalizeTail(EntriesOf(h', front), l.staged, EntriesOf(h', Kept(p)),
                 RoundOf(l.init, l.pending, whitelist, cfg.apply));
  }

  lemma FinalizeImportBuffer(p: Pipeline, l: Ledger, whitelist: seq<nat>, cfg: Config)
    requires IndexSim(p, l) && ImportSim(p, l)
    ensures ImportSim(Step(p, Finalize(whitelist), cfg), LedgerStep(l, Finalize(whitelist), cfg.apply))
  {
    var p' := Step(p, Finalize(whitelist), cfg);
    ImportBufferWrites(p, l, whitelist, cfg);
    FinalizeFrame(p.heap, p.pending, whitelist, cfg.apply);
    FilterMembers(Persisted(), p.pending);
    assert p.cache.importBuffer == Front(p.cache.importBuffer, Kept(p)) + Kept(p);
    assert Front(p'.cache.importBuffer, Kept(p')) == p.cache.importBuffer;
  }

  lemma ExecBufferWrites(p: Pipeline, l: Ledger, whitelist: seq<nat>, cfg: Config)
    requires IndexSim(p, l) && ExecSim(p, l)
    ensures Writes(CellEntriesOf(FinalizedHeap(p.heap, p.pending, whitelist, cfg.apply), p.exec.buffer),
                   l.survivors + [SurvivorsOf(l.init, l.pending, whitelist)])
  {
    var h' := FinalizedHeap(p.heap, p.pending, whitelist, cfg.apply);
    var front := Front(p.exec.buffer, p.pending);
    FinalizeFrame(p.heap, p.pending, whitelist, cfg.apply);
    EntriesAgree(p.heap, h', front);
    CellEntriesConcat(h', front, p.pending);
    PendingWrites(p, l, whitelist, cfg);
    FinalizeTail(CellEntriesOf(h', front), l.survivors, CellEntriesOf(h', p.pending),
                 SurvivorsOf(l.init, l.pending, whitelist));
  }

  // A state in which nothing is pending and the buffer writes the ledger's rounds.
  lemma ExecHolds(p: Pipeline, l: Ledger)
    requires p.pending == [] && forall c :: c in p.exec.buffer ==> c in p.heap
    requires Writes(CellEntriesOf(p.heap, p.exec.buffer), l.survivors)
    requires l.published <= |l.survivors| && p.exec.local == ApplyRounds(l.local, l.survivors[..l.published])
    ensures ExecSim(p, l)
  {
    assert EndsIn(p.exec.buffer, p.pending) && Front(p.exec.buffer, p.pending) == p.exec.buffer;
  }

  lemma FinalizeExec(p: Pipeline, l: Ledger, whitelist: seq<nat>, cfg: Config)
    requires IndexSim(p, l) && ExecSim(p, l)
    ensures ExecSim(Step(p, Finalize(whitelist), cfg), LedgerStep(l, Finalize(whitelist), cfg.apply))
  {
    var p', l' := Step(p, Finalize(whitelist), cfg), LedgerStep(l, Finalize(whitelist), cfg.apply);
    ExecBufferWrites(p, l, whitelist, cfg);
    FinalizeFrame(p.heap, p.pending, whitelist, cfg.apply);
    assert p.exec.buffer == Front(p.exec.buffer, p.pending) + p.pending;
    assert l'.survivors[..l'.published] == l.survivors[..l.published];
    ExecHolds(p', l');
  }

  // The survivors of the call carry the merged values; the earlier ones are not touched.
  lemma FinalizeValues(p: Pipeline, l: Ledger, whitelist: seq<nat>, cfg: Config)
    requires IndexSim(p, l) && ValueSim(p, l)
    ensures ValueSim(Step(p, Finalize(whitelist), cfg), LedgerStep(l, Finalize(whitelist), cfg.apply))
  {
    var p', l' := Step(p, Finalize(whitelist), cfg), LedgerStep(l, Finalize(whitelist), cfg.apply);
    FinalizeFrame(p.heap, p.pending, whitelist, cfg.apply);
    SurvivorsCarry(p, l, whitelist, cfg);
    forall i | 0 <= i < |l'.survivors| ensures Carries(p', l'.survivors[i], l'.values[i]) {
      if i < |l.survivors| {
        assert Carries(p, l.survivors[i], l.values[i]);
      }
    }
  }

  lemma SurvivorsCarry(p: Pipeline, l: Ledger, whitelist: seq<nat>, cfg: Config)
    requires IndexSim(p, l)
    ensures Carries(Step(p, Finalize(whitelist), cfg),
                    SurvivorsOf(l.init, l.pending, whitelist), ValuesOf(l.init, l.pending, whitelist, cfg.apply))
  {
    var p' := Step(p, Finalize(whitelist), cfg);
    var cells, values := SurvivorsOf(l.init, l.pending, whitelist), ValuesOf(l.init, l.pending, whitelist, cfg.apply);
    forall k | k in cells
      ensures cells[k].value in p'.heap && p'.heap[cells[k].value] == CellState(Some(k), values[k])
    {
      var s := SortedGroup(l.init, l.pending, whitelist, k);
      assert s[0] in s;
      GroupAgree(p.heap, l.init, p.pending, whitelist, cfg.apply, k);
      SurvivorIff(p.heap, p.pending, whitelist, cfg.apply, s[0], k);
    }
  }

  lemma FinalizeKeeps(p: Pipeline, l: Ledger, whitelist: seq<nat>, cfg: Config)
    requires Sim(p, l, cfg.codec)
    ensures Sim(Step(p, Finalize(whitelist), cfg), LedgerStep(l, Finalize(whitelist), cfg.apply), cfg.codec)
  {
    var p' := Step(p, Finalize(whitelist), cfg);
    FinalizeFrame(p.heap, p.pending, whitelist, cfg.apply);
    FinalizeImportBuffer(p, l, whitelist, cfg);
    FinalizeExec(p, l, whitelist, cfg);
    FinalizeValues(p, l, whitelist, cfg);
    EntriesAgree(p.heap, p'.heap, p.cache.buffer);
    EntriesAgree(p.heap, p'.heap, Flatten(p.cache.queue));
  }

  // ------------------------------------------------------------ the precommits

  lemma SyncPrecommitKeeps(p: Pipeline, l: Ledger, cfg: Config)
    requires Sim(p, l, cfg.codec) && Legal(l, SyncPrecommit)
    ensures Sim(Step(p, SyncPrecommit, cfg), LedgerStep(l, SyncPrecommit, cfg.apply), cfg.codec)
  {
    var p', l' := Step(p, SyncPrecommit, cfg), LedgerStep(l, SyncPrecommit, cfg.apply);
    assert Kept(p) == [] && Front(p.cache.importBuffer, Kept(p)) == p.cache.importBuffer;
    assert Front(p'.cache.importBuffer, Kept(p')) == [];
    ExecPrecommitKeeps(p, l, cfg);
    StatesKept(p, p', l, l');
  }

  // A call that leaves cells and survivors alone.
  lemma StatesKept(p: Pipeline, p': Pipeline, l: Ledger, l': Ledger)
    requires ValueSim(p, l) && p'.heap == p.heap && p'.pending == p.pending
    requires l'.survivors == l.survivors && l'.values == l.values
    ensures ValueSim(p', l')
  {
    forall i | 0 <= i < |l.survivors| ensures Carries(p', l.survivors[i], l.values[i]) {
      assert Carries(p, l.survivors[i], l.values[i]);
    }
  }

  lemma ReplayAtKey(start: map<string, StateCell>, local: map<string, StateCell>,
                    es: seq<Entry<StateCell>>, rounds: seq<Round<StateCell>>, n: nat, k: string)
    requires n <= |rounds| && local == ApplyRounds(start, rounds[..n])
    requires KeyOps(es, k) == RoundOps(rounds, k)
    ensures Lookup(Replay(local, es), k) == Lookup(ApplyRounds(start, rounds), k)
  {
    ReplayAt(local, es, k);
    ApplyRoundsAt(start, rounds, k);
    ApplyRoundsAt(start, rounds[..n], k);
    RoundOpsConcat(rounds[..n], rounds[n..], k);
    assert rounds == rounds[..n] + rounds[n..];
  }

  // Replaying the whole block's entries over what a prefix of the rounds published
  // gives what all the rounds publish.
  lemma ReplayIdempotent(start: map<string, StateCell>, local: map<string, StateCell>,
                         es: seq<Entry<StateCell>>, rounds: seq<Round<StateCell>>, n: nat)
    requires n <= |rounds| && local == ApplyRounds(start, rounds[..n])
    requires Writes(es, rounds)
    ensures Replay(local, es) == ApplyRounds(start, rounds)
  {
    forall k ensures Lookup(Replay(local, es), k) == Lookup(ApplyRounds(start, rounds), k) {
      ReplayAtKey(start, local, es, rounds, n, k);
    }
    LookupEqual(Replay(local, es), ApplyRounds(start, rounds));
  }

  lemma ExecPrecommitKeeps(p: Pipeline, l: Ledger, cfg: Config)
    requires IndexSim(p, l) && ExecSim(p, l) && Legal(l, SyncPrecommit)
    ensures ExecSim(Step(p, SyncPrecommit, cfg), LedgerStep(l, SyncPrecommit, cfg.apply))
  {
    var p', l' := Step(p, SyncPrecommit, cfg), LedgerStep(l, SyncPrecommit, cfg.apply);
    assert Front(p.exec.buffer, p.pending) == p.exec.buffer;
    assert Front(p'.exec.buffer, p'.pending) == p'.exec.buffer;
    EntriesUnflagged(p.heap, p.exec.buffer);
    FilterMembers(Unflagged(p.heap), p.exec.buffer);
    ReplayIdempotent(l.local, p.exec.local, CellEntriesOf(p.heap, p.exec.buffer), l.survivors, l.published);
    assert l'.survivors[..l'.published] == l.survivors;
  }

  lemma LookupEqual<V>(a: map<string, V>, b: map<string, V>)
    requires forall k :: Lookup(a, k) == Lookup(b, k)
    ensures a == b
  {
    forall k ensures k in a <==> k in b {
      assert Lookup(a, k) == Lookup(b, k);
    }
    forall k | k in a ensures a[k] == b[k] {
      assert Lookup(a, k) == Lookup(b, k);
    }
  }

  lemma AsyncPrecommitQueue(p: Pipeline, l: Ledger, cfg: Config)
    requires IndexSim(p, l) && CurrentSim(p, l) && QueueSim(p, l)
    ensures QueueSim(Step(p, AsyncPrecommit, cfg), LedgerStep(l, AsyncPrecommit, cfg.apply))
  {
    var p', l' := Step(p, AsyncPrecommit, cfg), LedgerStep(l, AsyncPrecommit, cfg.apply);
    var live := Filter(Unflagged(p.heap), p.cache.buffer);
    FlattenSnoc(p.cache.queue, live);
    FilterMembers(Unflagged(p.heap), p.cache.buffer);
    EntriesConcat(p.heap, Flatten(p.cache.queue), live);
    EntriesUnflagged(p.heap, p.cache.buffer);
    WritesConcat(EntriesOf(p.heap, Flatten(p.cache.queue)), l.history[l.nCache..], EntriesOf(p.heap, live), l.synced);
    assert l'.history[l'.nCache..] == l.history[l.nCache..] + l.synced;
  }

  lemma AsyncPrecommitStorage(p: Pipeline, l: Ledger, cfg: Config)
    requires IndexSim(p, l) && CurrentSim(p, l) && StorageSim(p, l, cfg.codec)
    ensures StorageSim(Step(p, AsyncPrecommit, cfg), LedgerStep(l, AsyncPrecommit, cfg.apply), cfg.codec)
  {
    var p', l' := Step(p, AsyncPrecommit, cfg), LedgerStep(l, AsyncPrecommit, cfg.apply);
    var es := EntriesOf(p.heap, p.storage.buffer);
    var batch := StorageBatch(KeysOf(es), EncodedOf(cfg.codec, es));
    QueueEntriesSnoc(p.storage.queue, batch);
    forall k ensures KeyOps(Zip(batch.keys, batch.encoded), k) == EncodeOps(cfg.codec, k, RoundOps(l.synced, k)) {
      EncodedEntriesOps(cfg.codec, es, k);
    }
    WritesEncodedConcat(cfg.codec, QueueEntries(p.storage.queue), l.history[l.nStore..],
                        Zip(batch.keys, batch.encoded), l.synced);
    assert l'.history[l'.nStore..] == l.history[l.nStore..] + l.synced;
  }

  lemma AsyncPrecommitKeeps(p: Pipeline, l: Ledger, cfg: Config)
    requires Sim(p, l, cfg.codec) && Legal(l, AsyncPrecommit)
    ensures Sim(Step(p, AsyncPrecommit, cfg), LedgerStep(l, AsyncPrecommit, cfg.apply), cfg.codec)
  {
    AsyncPrecommitQueue(p, l, cfg);
    AsyncPrecommitStorage(p, l, cfg);
    StatesKept(p, Step(p, AsyncPrecommit, cfg), l, LedgerStep(l, AsyncPrecommit, cfg.apply));
  }

  // ------------------------------------------------------------ the commits

  lemma SyncCommitQueue(p: Pipeline, l: Ledger, evict: set<string>, cfg: Config)
    requires IndexSim(p, l)
    ensures QueueSim(Step(p, SyncCommit(evict), cfg), LedgerStep(l, SyncCommit(evict), cfg.apply))
  {
    var p', l' := Step(p, SyncCommit(evict), cfg), LedgerStep(l, SyncCommit(evict), cfg.apply);
    assert l'.history[l'.nCache..] == [] && Flatten(p'.cache.queue) == [];
  }

  lemma SyncCommitExec(p: Pipeline, l: Ledger, evict: set<string>, cfg: Config)
    requires IndexSim(p, l) && l.pending == []
    ensures ExecSim(Step(p, SyncCommit(evict), cfg), LedgerStep(l, SyncCommit(evict), cfg.apply))
  {
    var p', l' := Step(p, SyncCommit(evict), cfg), LedgerStep(l, SyncCommit(evict), cfg.apply);
    assert p'.exec.buffer == [] && Front(p'.exec.buffer, p'.pending) == [];
    assert l'.survivors[..l'.published] == [];
  }

  lemma SyncCommitKeeps(p: Pipeline, l: Ledger, evict: set<string>, cfg: Config)
    requires Sim(p, l, cfg.codec) && Legal(l, SyncCommit(evict))
    ensures Sim(Step(p, SyncCommit(evict), cfg), LedgerStep(l, SyncCommit(evict), cfg.apply), cfg.codec)
  {
    var p', l' := Step(p, SyncCommit(evict), cfg), LedgerStep(l, SyncCommit(evict), cfg.apply);
    SyncCommitQueue(p, l, evict, cfg);
    SyncCommitExec(p, l, evict, cfg);
    assert p'.heap == p.heap && p'.pending == p.pending && p'.storage == p.storage;
    assert p'.cache.importBuffer == p.cache.importBuffer && p'.cache.buffer == p.cache.buffer;
    assert l'.staged == l.staged && l'.synced == l.synced && l'.awaitingAsync == l.awaitingAsync;
    assert l'.history == l.history && l'.nStore == l.nStore;
    assert ImportSim(p', l') && CurrentSim(p', l') && StorageSim(p', l', cfg.codec);
  }

  lemma AsyncCommitStorage(p: Pipeline, l: Ledger, cfg: Config)
    requires StorageSim(p, l, cfg.codec)
    ensures StorageSim(Step(p, AsyncCommit, cfg), LedgerStep(l, AsyncCommit, cfg.apply), cfg.codec)
  {
    var p', l' := Step(p, AsyncCommit, cfg), LedgerStep(l, AsyncCommit, cfg.apply);
    assert l'.history[l'.nStore..] == [] && QueueEntries(p'.storage.queue) == [];
  }

  lemma AsyncCommitKeeps(p: Pipeline, l: Ledger, cfg: Config)
    requires Sim(p, l, cfg.codec)
    ensures Sim(Step(p, AsyncCommit, cfg), LedgerStep(l, AsyncCommit, cfg.apply), cfg.codec)
  {
    AsyncCommitStorage(p, l, cfg);
    StatesKept(p, Step(p, AsyncCommit, cfg), l, LedgerStep(l, AsyncCommit, cfg.apply));
  }

  lemma StepKeeps(p: Pipeline, l: Ledger, op: Op, cfg: Config)
    requires Sim(p, l, cfg.codec) && Legal(l, op)
    ensures Sim(Step(p, op, cfg), LedgerStep(l, op, cfg.apply), cfg.codec)
  {
    match op
    case Import(batch, init) => ImportKeeps(p, l, batch, init, cfg);
    case Finalize(whitelist) => FinalizeKeeps(p, l, whitelist, cfg);
    case SyncPrecommit => SyncPrecommitKeeps(p, l, cfg);
    case AsyncPrecommit => AsyncPrecommitKeeps(p, l, cfg);
    case SyncCommit(evict) => SyncCommitKeeps(p, l, evict, cfg);
    case AsyncCommit => AsyncCommitKeeps(p, l, cfg);
  }
}
