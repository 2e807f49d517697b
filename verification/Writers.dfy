/**
 The store operations the writers share, as loops.
 */
module StoreBatches {
  import opened Cells
  import opened Batches

  method DeleteBatch<V>(m: map<string, V>, keys: seq<string>) returns (r: map<string, V>)
    ensures r == DeleteAll(m, keys)
  {
    r := m;
    var i := 0;
    while i < |keys|
      invariant 0 <= i <= |keys|
      invariant DeleteAll(r, keys[i..]) == DeleteAll(m, keys)
    {
      assert keys[i..][1..] == keys[i + 1..];
      r := r - {keys[i]};
      i := i + 1;
    }
  }

  method SetBatch<V>(m: map<string, V>, keys: seq<string>, values: seq<V>) returns (r: map<string, V>)
    requires |keys| == |values|
    ensures r == SetAll(m, keys, values)
  {
    r := m;
    var i := 0;
    while i < |keys|
      invariant 0 <= i <= |keys|
      invariant SetAll(r, keys[i..], values[i..]) == SetAll(m, keys, values)
    {
      assert keys[i..][1..] == keys[i + 1..] && values[i..][1..] == values[i + 1..];
      r := r[keys[i] := values[i]];
      i := i + 1;
    }
  }

  lemma {:induction false} DeletedKeysSnoc<V>(es: seq<Entry<V>>, e: Entry<V>)
    ensures DeletedKeys(es + [e]) == DeletedKeys(es) + (if e.val.None? then [e.key] else [])
  {
    if es == [] {
      assert [e][1..] == [] && es + [e] == [e];
    } else {
      var first := if es[0].val.None? then [es[0].key] else [];
      DeletedKeysSnoc(es[1..], e);
      assert (es + [e])[1..] == es[1..] + [e];
      assert DeletedKeys(es + [e]) == first + DeletedKeys(es[1..] + [e]);
      assert DeletedKeys(es) == first + DeletedKeys(es[1..]);
    }
  }

  lemma {:induction false} SetKeysSnoc<V>(es: seq<Entry<V>>, e: Entry<V>)
    ensures SetKeys(es + [e]) == SetKeys(es) + (if e.val.Some? then [e.key] else [])
  {
    if es == [] {
      assert [e][1..] == [] && es + [e] == [e];
    } else {
      var first := if es[0].val.Some? then [es[0].key] else [];
      SetKeysSnoc(es[1..], e);
      assert (es + [e])[1..] == es[1..] + [e];
      assert SetKeys(es + [e]) == first + SetKeys(es[1..] + [e]);
      assert SetKeys(es) == first + SetKeys(es[1..]);
    }
  }

  lemma {:induction false} SetValuesSnoc<V>(es: seq<Entry<V>>, e: Entry<V>)
    ensures SetValues(es + [e]) == SetValues(es) + (if e.val.Some? then [e.val.value] else [])
  {
    if es == [] {
      assert [e][1..] == [] && es + [e] == [e];
    } else {
      var first := if es[0].val.Some? then [es[0].val.value] else [];
      SetValuesSnoc(es[1..], e);
      assert (es + [e])[1..] == es[1..] + [e];
      assert SetValues(es + [e]) == first + SetValues(es[1..] + [e]);
      assert SetValues(es) == first + SetValues(es[1..]);
    }
  }

  // MoveBothIf on nil values: the deleted keys are taken out of two aligned buffers.
  method SplitDeleted<V>(keys: seq<string>, vals: seq<Option<V>>)
    returns (deleted: seq<string>, kept: seq<string>, values: seq<V>)
    requires |keys| == |vals|
    ensures deleted == DeletedKeys(Zip(keys, vals))
    ensures kept == SetKeys(Zip(keys, vals)) && values == SetValues(Zip(keys, vals))
  {
    ghost var es := Zip(keys, vals);
    deleted, kept, values := [], [], [];
    var i := 0;
    while i < |keys|
      invariant 0 <= i <= |keys|
      invariant deleted == DeletedKeys(es[..i])
      invariant kept == SetKeys(es[..i]) && values == SetValues(es[..i])
    {
      DeletedKeysSnoc(es[..i], Entry(keys[i], vals[i]));
      SetKeysSnoc(es[..i], Entry(keys[i], vals[i]));
      SetValuesSnoc(es[..i], Entry(keys[i], vals[i]));
      assert es[..i + 1] == es[..i] + [Entry(keys[i], vals[i])];
      if vals[i].None? {
        deleted := deleted + [keys[i]];
      } else {
        kept := kept + [keys[i]];
        values := values + [vals[i].value];
      }
      i := i + 1;
    }
    assert es[..i] == es;
  }

  // All deletes, then all sets.
  method FlushBatch<V>(m: map<string, V>, keys: seq<string>, vals: seq<Option<V>>) returns (r: map<string, V>)
    requires |keys| == |vals|
    ensures r == BatchApply(m, Zip(keys, vals))
  {
    var deleted, kept, values := SplitDeleted(keys, vals);
    r := DeleteBatch(m, deleted);
    r := SetBatch(r, kept, values);
  }
}

/**
 LiveCacheIndexer and LiveCacheWriter.
 */
module LiveCache {
  import opened Cells
  import opened Seqs
  import opened Batches
  import opened Finalization
  import opened Pipelines
  import opened StoreBatches

  // The cells of `h` are in the states `h` gives them.
  ghost predicate Coherent(h: Heap)
    reads h.Keys
  {
    forall c :: c in h ==> c.State() == h[c]
  }

  // RemoveIf on flagged cells.
  method RemoveFlagged(s: seq<StateCell>, ghost h: Heap) returns (r: seq<StateCell>)
    requires Coherent(h) && forall c :: c in s ==> c in h
    ensures r == Filter(Unflagged(h), s)
  {
    r := [];
    var i := 0;
    while i < |s|
      invariant 0 <= i <= |s|
      invariant r + Filter(Unflagged(h), s[i..]) == Filter(Unflagged(h), s)
    {
      assert s[i..][1..] == s[i + 1..] && s[i] in s;
      assert s[i].State() == h[s[i]];
      if s[i].path.Some? {
        r := r + [s[i]];
      }
      i := i + 1;
    }
  }

  // The storage filter NonTransientOnly: block-bound cells are not kept.
  method SelectPersisted(s: seq<StateCell>) returns (r: seq<StateCell>)
    ensures r == Filter(Persisted(), s)
  {
    r := [];
    var i := 0;
    while i < |s|
      invariant 0 <= i <= |s|
      invariant r + Filter(Persisted(), s[i..]) == Filter(Persisted(), s)
    {
      assert s[i..][1..] == s[i + 1..];
      if !s[i].blockBound {
        r := r + [s[i]];
      }
      i := i + 1;
    }
  }

  // The keys and values of a buffer without flagged cells, side by side.
  method KeysAndValues(s: seq<StateCell>, ghost h: Heap) returns (keys: seq<string>, values: seq<Val>)
    requires Coherent(h) && forall c :: c in s ==> c in h && h[c].path.Some?
    ensures keys == KeysOf(EntriesOf(h, s)) && values == ValsOf(EntriesOf(h, s))
    ensures |keys| == |values| == |s|
  {
    keys, values := [], [];
    var i := 0;
    assert EntriesOf(h, s[..0]) == [];
    while i < |s|
      invariant 0 <= i <= |s| && |keys| == |values| == i
      invariant keys == KeysOf(EntriesOf(h, s[..i])) && values == ValsOf(EntriesOf(h, s[..i]))
    {
      var c := s[i];
      assert c in s && c.State() == h[c];
      assert s[..i + 1] == s[..i] + [c];
      EntriesConcat(h, s[..i], [c]);
      assert [c][1..] == [];
      assert EntriesOf(h, [c]) == [Entry(c.path.value, c.value)];
      keys := keys + [c.path.value];
      values := values + [c.value];
      i := i + 1;
    }
    assert s[..i] == s;
  }

  class LiveCacheIndexer {
    var importBuffer: seq<StateCell>
    var buffer: seq<StateCell>
    var keys: seq<string>
    var values: seq<Val>

    constructor ()
      ensures importBuffer == [] && buffer == [] && keys == [] && values == []
    {
      importBuffer, buffer, keys, values := [], [], [], [];
    }

    method Import(transitions: seq<StateCell>)
      modifies this`importBuffer
      ensures importBuffer == old(importBuffer) + Filter(Persisted(), transitions)
    {
      var kept := SelectPersisted(transitions);
      importBuffer := importBuffer + kept;
    }

    method Reset()
      modifies this
      ensures buffer == old(importBuffer) && importBuffer == []
      ensures keys == old(keys) && values == old(values)
    {
      buffer := importBuffer;
      importBuffer := [];
    }

    method Finalize(ghost h: Heap)
      requires Coherent(h) && forall c :: c in buffer ==> c in h
      modifies this
      ensures buffer == Filter(Unflagged(h), old(buffer)) && importBuffer == old(importBuffer)
      ensures keys == KeysOf(EntriesOf(h, buffer)) && values == ValsOf(EntriesOf(h, buffer))
    {
      FilterElements(Unflagged(h), buffer);
      buffer := RemoveFlagged(buffer, h);
      keys, values := KeysAndValues(buffer, h);
    }
  }

  class LiveCacheWriter {
    var indexer: LiveCacheIndexer
    var buffer: seq<LiveCacheIndexer>
    var cache: map<string, Value>
    ghost var queue: seq<seq<StateCell>>  // the queued indexers' buffers

    ghost predicate Valid()
      reads this, buffer
    {
      && indexer !in buffer
      && |queue| == |buffer|
      && forall i :: 0 <= i < |buffer| ==> buffer[i].buffer == queue[i]
    }

    ghost function Repr(): set<object>
      reads this
    {
      {this, indexer} + (set x | x in buffer)
    }

    ghost function State(): CacheState
      reads this, indexer
    {
      CacheState(indexer.importBuffer, indexer.buffer, queue, cache)
    }

    constructor (cache: map<string, Value>)
      ensures Valid() && fresh(Repr()) && State() == CacheState([], [], [], cache)
    {
      this.indexer := new LiveCacheIndexer();
      this.buffer, this.queue := [], [];
      this.cache := cache;
    }

    method Import(transitions: seq<StateCell>)
      requires Valid()
      modifies indexer
      ensures Valid() && State() == CacheImport(old(State()), transitions)
    {
      indexer.Import(transitions);
    }

    method Precommit(isSync: bool, ghost h: Heap)
      requires Valid() && Coherent(h) && forall c :: c in State().buffer ==> c in h
      modifies this, indexer
      ensures Valid() && fresh(Repr() - old(Repr()))
      ensures State() == if isSync then CacheReset(old(State())) else CacheEnqueue(old(State()), h)
    {
      if isSync {
        indexer.Reset();
      } else {
        indexer.Finalize(h);
        Rotate();
      }
    }

    // Queue the indexer and start a new one.
    method Rotate()
      requires Valid()
      modifies this
      ensures Valid() && fresh(Repr() - old(Repr()))
      ensures State() == CacheState([], [], old(State()).queue + [old(indexer.buffer)], old(cache))
    {
      var next := new LiveCacheIndexer();
      buffer, queue := buffer + [indexer], queue + [indexer.buffer];
      indexer := next;
    }

    // Merge: the generations' buffers one after the other.
    method Merge() returns (merged: seq<StateCell>)
      requires Valid()
      ensures merged == Flatten(State().queue)
    {
      merged := [];
      var i := 0;
      while i < |buffer|
        invariant 0 <= i <= |buffer|
        invariant merged == Flatten(queue[..i])
      {
        assert queue[..i + 1] == queue[..i] + [buffer[i].buffer];
        FlattenSnoc(queue[..i], buffer[i].buffer);
        merged := merged + buffer[i].buffer;
        i := i + 1;
      }
      assert queue[..i] == queue;
    }

    // The eviction policy is the cache's own; `evicted` is what it drops.
    method Commit(evicted: set<string>, ghost h: Heap)
      requires Valid() && Coherent(h)
      requires forall c :: c in Flatten(State().queue) ==> c in h && h[c].path.Some?
      modifies this
      ensures Valid() && Repr() <= old(Repr())
      ensures State() == CacheCommit(old(State()), h, evicted)
    {
      var merged := Merge();
      var keys, values := KeysAndValues(merged, h);
      assert Zip(keys, values) == EntriesOf(h, merged);
      cache := FlushBatch(cache, keys, values);
      cache := cache - evicted;
      buffer, queue := [], [];
    }
  }
}

/**
 LiveStgIndexer and LiveStorageWriter: the same protocol on encoded values.
 */
module LiveStorage {
  import opened Cells
  import opened Seqs
  import opened Batches
  import opened Finalization
  import opened Pipelines
  import opened StoreBatches
  import opened LiveCache

  method EncodeValues(codec: Codec, keys: seq<string>, values: seq<Val>, ghost es: seq<Entry<Value>>)
    returns (encoded: seq<Option<Bytes>>)
    requires keys == KeysOf(es) && values == ValsOf(es)
    ensures encoded == EncodedOf(codec, es)
  {
    encoded := [];
    var i := 0;
    while i < |values|
      invariant 0 <= i <= |values| && |encoded| == i
      invariant forall j :: 0 <= j < i ==> encoded[j] == EncodeVal(codec, es[j].key, es[j].val)
    {
      var v := values[i];
      encoded := encoded + [if v.Some? then Some(codec.encode(keys[i], v.value)) else None];
      i := i + 1;
    }
  }

  class LiveStgIndexer {
    var importBuffer: seq<StateCell>
    var buffer: seq<StateCell>
    var keyBuffer: seq<string>
    var valueBuffer: seq<Val>
    var encodedBuffer: seq<Option<Bytes>>

    constructor ()
      ensures importBuffer == [] && buffer == [] && keyBuffer == [] && encodedBuffer == []
    {
      importBuffer, buffer, keyBuffer, valueBuffer, encodedBuffer := [], [], [], [], [];
    }

    method Import(transitions: seq<StateCell>, ghost h: Heap)
      requires Coherent(h) && forall c :: c in transitions ==> c in h
      modifies this`importBuffer
      ensures importBuffer == old(importBuffer) + Filter(Persisted(), Filter(Unflagged(h), transitions))
    {
      var unflagged := RemoveFlagged(transitions, h);
      var kept := SelectPersisted(unflagged);
      importBuffer := importBuffer + kept;
    }

    method Reset()
      modifies this`buffer, this`importBuffer
      ensures buffer == old(importBuffer) && importBuffer == []
    {
      buffer := importBuffer;
      importBuffer := [];
    }

    method Finalize(codec: Codec, ghost h: Heap)
      requires Coherent(h) && forall c :: c in buffer ==> c in h
      modifies this
      ensures importBuffer == old(importBuffer)
      ensures keyBuffer == KeysOf(EntriesOf(h, old(buffer)))
      ensures encodedBuffer == EncodedOf(codec, EntriesOf(h, old(buffer)))
    {
      FilterElements(Unflagged(h), buffer);
      EntriesUnflagged(h, buffer);
      ghost var es := EntriesOf(h, buffer);
      buffer := RemoveFlagged(buffer, h);
      keyBuffer, valueBuffer := KeysAndValues(buffer, h);
      encodedBuffer := EncodeValues(codec, keyBuffer, valueBuffer, es);
    }
  }

  class LiveStorageWriter {
    var indexer: LiveStgIndexer
    var buffer: seq<LiveStgIndexer>
    var store: map<string, Bytes>
    const codec: Codec
    ghost var queue: seq<StorageBatch>  // the queued indexers' keys and encoded values

    ghost predicate Valid()
      reads this, buffer
    {
      && indexer !in buffer
      && |queue| == |buffer|
      && forall i :: 0 <= i < |buffer| ==>
           buffer[i].keyBuffer == queue[i].keys && buffer[i].encodedBuffer == queue[i].encoded
    }

    ghost function Repr(): set<object>
      reads this
    {
      {this, indexer} + (set x | x in buffer)
    }

    ghost function State(): StorageState
      reads this, indexer
    {
      StorageState(indexer.importBuffer, indexer.buffer, queue, store)
    }

    constructor (store: map<string, Bytes>, codec: Codec)
      ensures Valid() && fresh(Repr()) && this.codec == codec && State() == StorageState([], [], [], store)
    {
      this.indexer := new LiveStgIndexer();
      this.buffer, this.queue := [], [];
      this.store := store;
      this.codec := codec;
    }

    method Import(transitions: seq<StateCell>, ghost h: Heap)
      requires Valid() && Coherent(h) && forall c :: c in transitions ==> c in h
      modifies indexer
      ensures Valid() && State() == StorageImport(old(State()), h, transitions)
    {
      indexer.Import(transitions, h);
    }

    method Precommit(isSync: bool, ghost h: Heap)
      requires Valid() && Coherent(h) && forall c :: c in State().buffer ==> c in h
      modifies this, indexer
      ensures Valid() && fresh(Repr() - old(Repr()))
      ensures State() == if isSync then StorageReset(old(State())) else StorageEnqueue(old(State()), h, codec)
    {
      if isSync {
        indexer.Reset();
      } else {
        indexer.Finalize(codec, h);
        Rotate();
      }
    }

    // Queue the indexer and start a new one.
    method Rotate()
      requires Valid()
      modifies this
      ensures Valid() && fresh(Repr() - old(Repr()))
      ensures State() == StorageState([], [],
                           old(State()).queue
                           + [StorageBatch(old(indexer.keyBuffer), old(indexer.encodedBuffer))],
                           old(store))
    {
      var next := new LiveStgIndexer();
      buffer, queue := buffer + [indexer], queue + [StorageBatch(indexer.keyBuffer, indexer.encodedBuffer)];
      indexer := next;
    }

    // Merge: keys and encoded values of all generations, still side by side.
    method Merge() returns (keys: seq<string>, encoded: seq<Option<Bytes>>)
      requires Valid()
      ensures keys == MergedKeys(State().queue) && encoded == MergedEncoded(State().queue)
    {
      keys, encoded := [], [];
      var i := 0;
      while i < |buffer|
        invariant 0 <= i <= |buffer|
        invariant keys + MergedKeys(queue[i..]) == MergedKeys(queue)
        invariant encoded + MergedEncoded(queue[i..]) == MergedEncoded(queue)
      {
        assert queue[i..][1..] == queue[i + 1..];
        keys := keys + buffer[i].keyBuffer;
        encoded := encoded + buffer[i].encodedBuffer;
        i := i + 1;
      }
    }

    method Commit()
      requires Valid() && Aligned(State().queue)
      modifies this
      ensures Valid() && Repr() <= old(Repr())
      ensures State() == StorageCommit(old(State()))
    {
      MergedAligned(State().queue);
      var keys, encoded := Merge();
      store := FlushBatch(store, keys, encoded);
      buffer, queue := [], [];
    }
  }
}

/**
 ExecutionCacheWriter: publishes each generation's survivors into the local cells.
 */
module ExecutionCache {
  import opened Cells
  import opened Seqs
  import opened Batches
  import opened Finalization
  import opened Pipelines
  import opened LiveCache

  class ExecutionCacheWriter {
    var buffer: seq<StateCell>
    var localCells: map<string, StateCell>

    ghost function State(): ExecState
      reads this
    {
      ExecState(buffer, localCells)
    }

    constructor (localCells: map<string, StateCell>)
      ensures State() == ExecState([], localCells)
    {
      this.buffer, this.localCells := [], localCells;
    }

    method Import(transitions: seq<StateCell>)
      modifies this
      ensures State() == ExecImport(old(State()), transitions)
    {
      buffer := buffer + transitions;
    }

    method Precommit(ghost h: Heap)
      requires Coherent(h) && forall c :: c in buffer ==> c in h
      modifies this
      ensures State() == ExecPrecommit(old(State()), h)
    {
      FilterElements(Unflagged(h), buffer);
      EntriesUnflagged(h, buffer);
      buffer := RemoveFlagged(buffer, h);
      ghost var es := CellEntriesOf(h, buffer);
      var i := 0;
      while i < |buffer|
        invariant 0 <= i <= |buffer|
        invariant buffer == Filter(Unflagged(h), old(buffer))
        invariant Replay(localCells, CellEntriesOf(h, buffer[i..])) == Replay(old(localCells), es)
      {
        var c := buffer[i];
        assert c == Filter(Unflagged(h), old(buffer))[i];
        assert c.State() == h[c];
        assert buffer[i..][1..] == buffer[i + 1..];
        assert CellEntriesOf(h, buffer[i..])[1..] == CellEntriesOf(h, buffer[i + 1..]);
        localCells := localCells[c.path.value := c];
        i := i + 1;
      }
    }

    method Commit()
      modifies this
      ensures State() == ExecCommit(old(State()))
    {
      buffer, localCells := [], map[];
    }
  }
}
