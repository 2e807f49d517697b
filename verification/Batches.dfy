/**
 Batches of keyed updates.  Every store is updated at block commit by one batch,
 "all deletes, then all sets", over the concatenated generations.  What a batch
 does to a key depends only on that key's own sequence of operations, so the
 comparison with an in-order replay is made key by key.
 */
module Batches {
  import opened Cells
  import opened Seqs

  // One update: None deletes the key.
  datatype Entry<V> = Entry(key: string, val: Option<V>)

  // The merged result of one generation: at most one update per path.
  type Round<V> = map<string, Option<V>>

  function Lookup<V>(m: map<string, V>, k: string): Option<V> {
    if k in m then Some(m[k]) else None
  }

  // Two index-aligned buffers seen as entries, and back.
  function Zip<V>(keys: seq<string>, vals: seq<Option<V>>): (r: seq<Entry<V>>)
    requires |keys| == |vals|
    ensures |r| == |keys|
  {
    seq(|keys|, i requires 0 <= i < |keys| => Entry(keys[i], vals[i]))
  }

  function KeysOf<V>(es: seq<Entry<V>>): (r: seq<string>)
    ensures |r| == |es|
  {
    seq(|es|, i requires 0 <= i < |es| => es[i].key)
  }

  function ValsOf<V>(es: seq<Entry<V>>): (r: seq<Option<V>>)
    ensures |r| == |es|
  {
    seq(|es|, i requires 0 <= i < |es| => es[i].val)
  }

  // ------------------------------------------------------- the store operations

  // DeleteBatch.
  function DeleteAll<V>(m: map<string, V>, keys: seq<string>): map<string, V>
    decreases |keys|
  {
    if keys == [] then m else DeleteAll(m - {keys[0]}, keys[1..])
  }

  // SetBatch, in order.
  function SetAll<V>(m: map<string, V>, keys: seq<string>, values: seq<V>): map<string, V>
    requires |keys| == |values|
    decreases |keys|
  {
    if keys == [] then m else SetAll(m[keys[0] := values[0]], keys[1..], values[1..])
  }

  function DeletedKeys<V>(es: seq<Entry<V>>): seq<string> {
    if es == [] then []
    else (if es[0].val.None? then [es[0].key] else []) + DeletedKeys(es[1..])
  }

  function SetKeys<V>(es: seq<Entry<V>>): seq<string> {
    if es == [] then []
    else (if es[0].val.Some? then [es[0].key] else []) + SetKeys(es[1..])
  }

  function SetValues<V>(es: seq<Entry<V>>): (r: seq<V>)
    ensures |r| == |SetKeys(es)|
  {
    if es == [] then []
    else (if es[0].val.Some? then [es[0].val.value] else []) + SetValues(es[1..])
  }

  // The block commit: all deletes, then all sets.
  function BatchApply<V>(m: map<string, V>, es: seq<Entry<V>>): map<string, V> {
    SetAll(DeleteAll(m, DeletedKeys(es)), SetKeys(es), SetValues(es))
  }

  // The reference: one update after the other.
  function Update<V>(m: map<string, V>, e: Entry<V>): map<string, V> {
    if e.val.Some? then m[e.key := e.val.value] else m - {e.key}
  }

  function Replay<V>(m: map<string, V>, es: seq<Entry<V>>): map<string, V>
    decreases |es|
  {
    if es == [] then m else Replay(Update(m, es[0]), es[1..])
  }

  // ------------------------------------------------------- one key at a time

  // The operations on key `k`, in order.
  function KeyOps<V>(es: seq<Entry<V>>, k: string): seq<Option<V>> {
    if es == [] then []
    else (if es[0].key == k then [es[0].val] else []) + KeyOps(es[1..], k)
  }

  function LastSet<V>(ops: seq<Option<V>>): (r: Option<V>)
  {
    if ops == [] then None
    else if LastSet(ops[1..]).Some? then LastSet(ops[1..])
    else ops[0]
  }

  function BatchResult<V>(was: Option<V>, ops: seq<Option<V>>): Option<V> {
    if ops == [] then was else LastSet(ops)
  }

  function ReplayResult<V>(was: Option<V>, ops: seq<Option<V>>): Option<V> {
    if ops == [] then was else ops[|ops| - 1]
  }

  // The last operation is a delete and an earlier one is a set.
  ghost predicate SetThenDeleted<V>(ops: seq<Option<V>>) {
    && ops != []
    && ops[|ops| - 1] == None
    && exists i :: 0 <= i < |ops| && ops[i].Some?
  }

  lemma {:induction false} DeleteAllAt<V>(m: map<string, V>, keys: seq<string>, k: string)
    ensures Lookup(DeleteAll(m, keys), k) == if k in keys then None else Lookup(m, k)
    decreases |keys|
  {
    if keys != [] {
      DeleteAllAt(m - {keys[0]}, keys[1..], k);
    }
  }

  lemma {:induction false} DeletedKeysOps<V>(es: seq<Entry<V>>, k: string)
    ensures k in DeletedKeys(es) <==> None in KeyOps(es, k)
  {
    if es != [] {
      DeletedKeysOps(es[1..], k);
    }
  }

  lemma {:induction false} SetAllAt<V>(m: map<string, V>, es: seq<Entry<V>>, k: string)
    ensures Lookup(SetAll(m, SetKeys(es), SetValues(es)), k)
         == if LastSet(KeyOps(es, k)).Some? then LastSet(KeyOps(es, k)) else Lookup(m, k)
    decreases |es|
  {
    if es != [] {
      var e := es[0];
      if e.val.Some? {
        SetAllAt(m[e.key := e.val.value], es[1..], k);
        assert SetKeys(es)[1..] == SetKeys(es[1..]);
        assert SetValues(es)[1..] == SetValues(es[1..]);
      } else {
        SetAllAt(m, es[1..], k);
        assert SetKeys(es) == SetKeys(es[1..]) && SetValues(es) == SetValues(es[1..]);
      }
      if e.key == k {
        assert KeyOps(es, k)[1..] == KeyOps(es[1..], k);
      } else {
        assert KeyOps(es, k) == KeyOps(es[1..], k);
      }
    }
  }

  lemma {:induction false} LastSetMember<V>(ops: seq<Option<V>>)
    ensures LastSet(ops).Some? <==> exists i :: 0 <= i < |ops| && ops[i].Some?
    ensures LastSet(ops).Some? ==> LastSet(ops) in ops
    ensures ops != [] && ops[|ops| - 1].Some? ==> LastSet(ops) == ops[|ops| - 1]
  {
    if ops != [] {
      LastSetMember(ops[1..]);
      if LastSet(ops[1..]).Some? {
        var i :| 0 <= i < |ops[1..]| && ops[1..][i].Some?;
        assert ops[i + 1].Some?;
      }
    }
  }

  // What a batch leaves at a key: its last set, or nothing if it was only deleted.
  lemma BatchApplyAt<V>(m: map<string, V>, es: seq<Entry<V>>, k: string)
    ensures Lookup(BatchApply(m, es), k) == BatchResult(Lookup(m, k), KeyOps(es, k))
  {
    var ops := KeyOps(es, k);
    SetAllAt(DeleteAll(m, DeletedKeys(es)), es, k);
    DeleteAllAt(m, DeletedKeys(es), k);
    DeletedKeysOps(es, k);
    LastSetMember(ops);
    if ops != [] && LastSet(ops).None? {
      assert ops[0] == None;
    }
  }

  // What it leaves, told on the entries: the last set of the key wherever it stands, and
  // without any set nothing if there is a delete, else what was there.
  lemma BatchLeavesLastSet<V>(m: map<string, V>, es: seq<Entry<V>>, k: string, i: nat)
    requires i < |es| && es[i].key == k && es[i].val.Some?
    requires forall j :: i < j < |es| && es[j].key == k ==> es[j].val.None?
    ensures k in BatchApply(m, es) && BatchApply(m, es)[k] == es[i].val.value
  {
    BatchApplyAt(m, es, k);
    LastSetOfEntries(es, k, i);
  }

  lemma {:induction false} LastSetOfEntries<V>(es: seq<Entry<V>>, k: string, i: nat)
    requires i < |es| && es[i].key == k && es[i].val.Some?
    requires forall j :: i < j < |es| && es[j].key == k ==> es[j].val.None?
    ensures KeyOps(es, k) != [] && LastSet(KeyOps(es, k)) == es[i].val
  {
    var rest := es[1..];
    if i > 0 {
      LastSetOfEntries(rest, k, i - 1);
      if es[0].key == k {
        assert KeyOps(es, k)[1..] == KeyOps(rest, k);
      } else {
        assert KeyOps(es, k) == KeyOps(rest, k);
      }
    } else {
      NoSetOfEntries(rest, k);
      assert KeyOps(es, k)[1..] == KeyOps(rest, k);
    }
  }

  lemma {:induction false} NoSetOfEntries<V>(es: seq<Entry<V>>, k: string)
    requires forall j :: 0 <= j < |es| && es[j].key == k ==> es[j].val.None?
    ensures LastSet(KeyOps(es, k)) == None
    ensures KeyOps(es, k) == [] <==> forall j :: 0 <= j < |es| ==> es[j].key != k
  {
    if es != [] {
      NoSetOfEntries(es[1..], k);
      if es[0].key == k {
        assert KeyOps(es, k)[1..] == KeyOps(es[1..], k);
      } else {
        assert KeyOps(es, k) == KeyOps(es[1..], k);
        assert forall j :: 0 < j < |es| ==> es[j] == es[1..][j - 1];
      }
    }
  }

  lemma BatchWithoutSet<V>(m: map<string, V>, es: seq<Entry<V>>, k: string)
    requires forall j :: 0 <= j < |es| && es[j].key == k ==> es[j].val.None?
    ensures Lookup(BatchApply(m, es), k)
         == if exists j :: 0 <= j < |es| && es[j].key == k then None else Lookup(m, k)
  {
    BatchApplyAt(m, es, k);
    NoSetOfEntries(es, k);
  }

  lemma {:induction false} ReplayAt<V>(m: map<string, V>, es: seq<Entry<V>>, k: string)
    ensures Lookup(Replay(m, es), k) == ReplayResult(Lookup(m, k), KeyOps(es, k))
    decreases |es|
  {
    if es != [] {
      ReplayAt(Update(m, es[0]), es[1..], k);
      var rest := KeyOps(es[1..], k);
      if es[0].key == k {
        assert KeyOps(es, k) == [es[0].val] + rest;
      } else {
        assert KeyOps(es, k) == rest;
      }
    }
  }

  // "All deletes, then all sets" agrees with the in-order replay at a key exactly
  // when that key is not set and then finally deleted within the batch.
  lemma BatchVersusReplay<V>(m: map<string, V>, es: seq<Entry<V>>, k: string)
    ensures Lookup(BatchApply(m, es), k) == Lookup(Replay(m, es), k)
       <==> !SetThenDeleted(KeyOps(es, k))
  {
    BatchApplyAt(m, es, k);
    ReplayAt(m, es, k);
    LastSetMember(KeyOps(es, k));
  }

  // The failing family has a member: a key created and removed in one block stays.
  lemma DeletedKeySurvivesBatch<V>(k: string, v: V)
    ensures var es := [Entry(k, Some(v)), Entry(k, None)];
            Lookup(Replay(map[], es), k) == None && Lookup(BatchApply(map[], es), k) == Some(v)
  {
    var es := [Entry(k, Some(v)), Entry(k, None)];
    assert es == [Entry(k, Some(v))] + [Entry(k, None)];
    KeyOpsConcat([Entry(k, Some(v))], [Entry(k, None)], k);
    assert [Entry(k, Some(v))][1..] == [] && [Entry<V>.Entry(k, None)][1..] == [];
    var ops: seq<Option<V>> := [Some(v), None];
    assert KeyOps(es, k) == ops;
    assert ops[1..] == [None] && ops[1..][1..] == [];
    assert LastSet(ops[1..]) == None;
    ReplayAt(map[], es, k);
    BatchApplyAt(map[], es, k);
  }

  // A batch and a replay of the same operations, from any two states.
  lemma BatchRight<V>(was: Option<V>, ref: Option<V>, ops: seq<Option<V>>)
    requires ops != []
    ensures BatchResult(was, ops) == ReplayResult(ref, ops) <==> !SetThenDeleted(ops)
    ensures BatchResult(was, ops) == None ==> !SetThenDeleted(ops)
  {
    LastSetMember(ops);
  }

  // ------------------------------------------------------- rounds

  function RoundOp<V>(r: Round<V>, k: string): seq<Option<V>> {
    if k in r then [r[k]] else []
  }

  // The operations a sequence of rounds performs on key `k`.
  function RoundOps<V>(rounds: seq<Round<V>>, k: string): seq<Option<V>> {
    if rounds == [] then [] else RoundOp(rounds[0], k) + RoundOps(rounds[1..], k)
  }

  // The reference state: each round's merged value per path, in order.
  function ApplyRound<V>(m: map<string, V>, r: Round<V>): map<string, V> {
    map k | k in m.Keys + r.Keys && (k in r ==> r[k].Some?) :: if k in r then r[k].value else m[k]
  }

  function ApplyRounds<V>(m: map<string, V>, rounds: seq<Round<V>>): map<string, V>
    decreases |rounds|
  {
    if rounds == [] then m else ApplyRounds(ApplyRound(m, rounds[0]), rounds[1..])
  }

  lemma {:induction false} ApplyRoundsAt<V>(m: map<string, V>, rounds: seq<Round<V>>, k: string)
    ensures Lookup(ApplyRounds(m, rounds), k) == ReplayResult(Lookup(m, k), RoundOps(rounds, k))
    decreases |rounds|
  {
    if rounds != [] {
      ApplyRoundsAt(ApplyRound(m, rounds[0]), rounds[1..], k);
      var rest := RoundOps(rounds[1..], k);
      if k in rounds[0] {
        assert RoundOps(rounds, k) == [rounds[0][k]] + rest;
      } else {
        assert RoundOps(rounds, k) == rest;
      }
    }
  }

  // The reference at a key: the last round that has it decides, and before any it is as it was.
  lemma {:induction false} ReferenceIsLastRound<V>(m: map<string, V>, rounds: seq<Round<V>>, k: string, i: nat)
    requires i < |rounds| && k in rounds[i] && forall j :: i < j < |rounds| ==> k !in rounds[j]
    ensures Lookup(ApplyRounds(m, rounds), k) == rounds[i][k]
    decreases i
  {
    if i > 0 {
      ReferenceIsLastRound(ApplyRound(m, rounds[0]), rounds[1..], k, i - 1);
    } else {
      ReferenceUntouched(ApplyRound(m, rounds[0]), rounds[1..], k);
    }
  }

  lemma {:induction false} ReferenceUntouched<V>(m: map<string, V>, rounds: seq<Round<V>>, k: string)
    requires forall j :: 0 <= j < |rounds| ==> k !in rounds[j]
    ensures Lookup(ApplyRounds(m, rounds), k) == Lookup(m, k)
    decreases |rounds|
  {
    if rounds != [] {
      ReferenceUntouched(ApplyRound(m, rounds[0]), rounds[1..], k);
    }
  }

  lemma {:induction false} ApplyRoundsConcat<V>(m: map<string, V>, a: seq<Round<V>>, b: seq<Round<V>>)
    ensures ApplyRounds(m, a + b) == ApplyRounds(ApplyRounds(m, a), b)
    decreases |a|
  {
    if a == [] {
      assert a + b == b;
    } else {
      assert (a + b)[1..] == a[1..] + b;
      ApplyRoundsConcat(ApplyRound(m, a[0]), a[1..], b);
    }
  }

  lemma {:induction false} KeyOpsConcat<V>(a: seq<Entry<V>>, b: seq<Entry<V>>, k: string)
    ensures KeyOps(a + b, k) == KeyOps(a, k) + KeyOps(b, k)
  {
    if a == [] {
      assert a + b == b;
    } else {
      var x, y, z := if a[0].key == k then [a[0].val] else [], KeyOps(a[1..], k), KeyOps(b, k);
      KeyOpsConcat(a[1..], b, k);
      assert (a + b)[1..] == a[1..] + b;
      assert KeyOps(a + b, k) == x + (y + z) && KeyOps(a, k) == x + y;
      ConcatAssoc(x, y, z);
    }
  }

  lemma {:induction false} RoundOpsConcat<V>(a: seq<Round<V>>, b: seq<Round<V>>, k: string)
    ensures RoundOps(a + b, k) == RoundOps(a, k) + RoundOps(b, k)
  {
    if a == [] {
      assert a + b == b;
    } else {
      var x, y, z := RoundOp(a[0], k), RoundOps(a[1..], k), RoundOps(b, k);
      RoundOpsConcat(a[1..], b, k);
      assert (a + b)[1..] == a[1..] + b;
      assert RoundOps(a + b, k) == x + (y + z) && RoundOps(a, k) == x + y;
      ConcatAssoc(x, y, z);
    }
  }

  lemma RoundOpsOne<V>(r: Round<V>, k: string)
    ensures RoundOps([r], k) == RoundOp(r, k)
  {
    assert [r][1..] == [];
  }

  // A batch whose operations, key by key, are those of some rounds brings the store
  // to the reference state, unless a key is set and then finally deleted.
  lemma BatchReachesReference<V>(m: map<string, V>, es: seq<Entry<V>>, rounds: seq<Round<V>>, k: string)
    requires KeyOps(es, k) == RoundOps(rounds, k)
    ensures Lookup(BatchApply(m, es), k) == Lookup(ApplyRounds(m, rounds), k)
       <==> !SetThenDeleted(RoundOps(rounds, k))
  {
    BatchApplyAt(m, es, k);
    ApplyRoundsAt(m, rounds, k);
    LastSetMember(KeyOps(es, k));
  }
}
