/**
 The Ethereum account: where an update puts each key, and how it is read back.  The
 trie is a map and the storage key function is arbitrary; what is asked of it is only
 that the slots of one update differ.
 */
module Accounts {
  import opened Cells
  import opened Batches
  import opened Paths
  import opened Pipelines

  type Slot(==, !new)
  type Digest(==, !new)

  type KeyTest = string -> bool

  function IsRoot(): KeyTest {
    (k: string) => |k| == ETH_ACCOUNT_FULL_LENGTH + 1
  }

  function EndsWith(suffix: string): KeyTest {
    (k: string) => HasSuffix(k, suffix)
  }

  // ------------------------------------------------------------ find and remove

  // FindFirstIf and RemoveAt on two aligned lists, seen as entries.
  function FirstMatch(test: KeyTest, es: seq<Entry<Value>>): Option<Entry<Value>> {
    if es == [] then None else if test(es[0].key) then Some(es[0]) else FirstMatch(test, es[1..])
  }

  function RemoveFirst(test: KeyTest, es: seq<Entry<Value>>): seq<Entry<Value>> {
    if es == [] then [] else if test(es[0].key) then es[1..] else [es[0]] + RemoveFirst(test, es[1..])
  }

  ghost predicate AtMostOne(test: KeyTest, es: seq<Entry<Value>>) {
    es != [] ==> (test(es[0].key) ==> forall e :: e in es[1..] ==> !test(e.key)) && AtMostOne(test, es[1..])
  }

  method FindFirst(keys: seq<string>, test: KeyTest) returns (pos: int)
    ensures -1 <= pos < |keys|
    ensures pos == -1 <==> forall i :: 0 <= i < |keys| ==> !test(keys[i])
    ensures pos >= 0 ==> test(keys[pos]) && forall i :: 0 <= i < pos ==> !test(keys[i])
  {
    pos := 0;
    while pos < |keys|
      invariant 0 <= pos <= |keys|
      invariant forall i :: 0 <= i < pos ==> !test(keys[i])
    {
      if test(keys[pos]) {
        return;
      }
      pos := pos + 1;
    }
    pos := -1;
  }

  lemma {:induction false} FirstMatchAt(test: KeyTest, es: seq<Entry<Value>>, pos: nat)
    requires pos < |es| && test(es[pos].key) && forall i :: 0 <= i < pos ==> !test(es[i].key)
    ensures FirstMatch(test, es) == Some(es[pos])
    ensures RemoveFirst(test, es) == es[..pos] + es[pos + 1..]
  {
    if pos > 0 {
      var rest := es[1..];
      assert !test(es[0].key);
      FirstMatchAt(test, rest, pos - 1);
      assert rest[..pos - 1] == es[1..pos] && rest[pos..] == es[pos + 1..];
      assert RemoveFirst(test, es) == [es[0]] + (es[1..pos] + es[pos + 1..]);
      assert es[..pos] == [es[0]] + es[1..pos];
    }
  }

  lemma {:induction false} NoMatch(test: KeyTest, es: seq<Entry<Value>>)
    requires forall i :: 0 <= i < |es| ==> !test(es[i].key)
    ensures FirstMatch(test, es) == None && RemoveFirst(test, es) == es
  {
    if es != [] {
      NoMatch(test, es[1..]);
    }
  }

  // Take the first matching pair out of both lists; they stay aligned.
  method TakeFirst(keys: seq<string>, vals: seq<Val>, test: KeyTest)
    returns (taken: Option<Entry<Value>>, keys': seq<string>, vals': seq<Val>)
    requires |keys| == |vals|
    ensures |keys'| == |vals'|
    ensures taken == FirstMatch(test, Zip(keys, vals))
    ensures Zip(keys', vals') == RemoveFirst(test, Zip(keys, vals))
  {
    ghost var es := Zip(keys, vals);
    var pos := FindFirst(keys, test);
    if pos >= 0 {
      FirstMatchAt(test, es, pos);
      taken := Some(Entry(keys[pos], vals[pos]));
      keys', vals' := keys[..pos] + keys[pos + 1..], vals[..pos] + vals[pos + 1..];
      assert Zip(keys', vals') == es[..pos] + es[pos + 1..];
    } else {
      NoMatch(test, es);
      taken, keys', vals' := None, keys, vals;
    }
  }

  // ------------------------------------------------------------ the account

  datatype AccountState = AccountState(
    nonce: Val,
    balance: Val,
    code: Val,                      // None: not loaded yet
    codeHash: Digest,
    codeStore: map<Digest, Value>,  // the code database
    trie: map<Slot, Bytes>)

  datatype Scheme = Scheme(slotOf: string -> Slot, encode: (string, Value) -> Bytes, hash: Value -> Digest)

  // A nil value clears the slot.
  function UpdateTrie(s: Scheme, trie: map<Slot, Bytes>, es: seq<Entry<Value>>): map<Slot, Bytes>
    decreases |es|
  {
    if es == [] then trie
    else
      var slot := s.slotOf(es[0].key);
      var next := if es[0].val.Some? then trie[slot := s.encode(es[0].key, es[0].val.value)] else trie - {slot};
      UpdateTrie(s, next, es[1..])
  }

  function SetCode(s: Scheme, a: AccountState, v: Value): AccountState {
    a.(code := Some(v), codeHash := s.hash(v), codeStore := a.codeStore[s.hash(v) := v])
  }

  // The reserved entries carry values.
  ghost predicate ReservedHaveValues(es: seq<Entry<Value>>) {
    forall i :: 0 <= i < |es| && ReservedSuffix(es[i].key) ==> es[i].val.Some?
  }

  function Updated(s: Scheme, a: AccountState, es: seq<Entry<Value>>): AccountState {
    var es1 := RemoveFirst(IsRoot(), es);
    var nonce := FirstMatch(EndsWith(PATH_NONCE), es1);
    var es2 := RemoveFirst(EndsWith(PATH_NONCE), es1);
    var balance := FirstMatch(EndsWith(PATH_BALANCE), es2);
    var es3 := RemoveFirst(EndsWith(PATH_BALANCE), es2);
    var code := FirstMatch(EndsWith(PATH_CODE), es3);
    var es4 := RemoveFirst(EndsWith(PATH_CODE), es3);
    var a1 := if nonce.Some? then a.(nonce := nonce.value.val) else a;
    var a2 := if balance.Some? then a1.(balance := balance.value.val) else a1;
    var a3 := if code.Some? && code.value.val.Some? then SetCode(s, a2, code.value.val.value) else a2;
    a3.(trie := UpdateTrie(s, a3.trie, es4))
  }

  // Failed: the code database does not have the code.
  datatype Found = Field(value: Val) | Stored(raw: Bytes) | NotFound | Failed

  function CodeOf(a: AccountState): Val {
    if a.code.Some? then a.code else if a.codeHash in a.codeStore then Some(a.codeStore[a.codeHash]) else None
  }

  function GetFrom(s: Scheme, a: AccountState, path: string): Found {
    if HasSuffix(path, PATH_BALANCE) then Field(a.balance)
    else if HasSuffix(path, PATH_NONCE) then Field(a.nonce)
    else if HasSuffix(path, PATH_CODE) then (if CodeOf(a).Some? then Field(CodeOf(a)) else Failed)
    else if s.slotOf(path) in a.trie then Stored(a.trie[s.slotOf(path)])
    else NotFound
  }

  class Account {
    const addr: string
    const scheme: Scheme
    var nonce: Val
    var balance: Val
    var code: Val
    var codeHash: Digest
    var codeStore: map<Digest, Value>
    var storageTrie: map<Slot, Bytes>

    ghost function State(): AccountState
      reads this
    {
      AccountState(nonce, balance, code, codeHash, codeStore, storageTrie)
    }

    constructor (addr: string, scheme: Scheme, a: AccountState)
      ensures State() == a && this.scheme == scheme && this.addr == addr
    {
      this.addr, this.scheme := addr, scheme;
      nonce, balance, code := a.nonce, a.balance, a.code;
      codeHash, codeStore, storageTrie := a.codeHash, a.codeStore, a.trie;
    }

    method UpdateAccountStorageTrie(keys: seq<string>, vals: seq<Val>)
      requires |keys| == |vals| && ReservedHaveValues(Zip(keys, vals))
      modifies this
      ensures State() == Updated(scheme, old(State()), Zip(keys, vals))
    {
      var root, keys1, vals1 := TakeFirst(keys, vals, IsRoot());
      var n, keys2, vals2 := TakeFirst(keys1, vals1, EndsWith(PATH_NONCE));
      if n.Some? {
        nonce := n.value.val;
      }
      var b, keys3, vals3 := TakeFirst(keys2, vals2, EndsWith(PATH_BALANCE));
      if b.Some? {
        balance := b.value.val;
      }
      var c, keys4, vals4 := TakeFirst(keys3, vals3, EndsWith(PATH_CODE));
      if c.Some? && c.value.val.Some? {
        var v := c.value.val.value;
        code, codeHash := Some(v), scheme.hash(v);
        codeStore := codeStore[codeHash := v];
      }
      WriteTrie(keys4, vals4);
    }

    method WriteTrie(keys: seq<string>, vals: seq<Val>)
      requires |keys| == |vals|
      modifies this`storageTrie
      ensures storageTrie == UpdateTrie(scheme, old(storageTrie), Zip(keys, vals))
    {
      ghost var es := Zip(keys, vals);
      var i := 0;
      while i < |keys|
        invariant 0 <= i <= |keys|
        invariant UpdateTrie(scheme, storageTrie, es[i..]) == UpdateTrie(scheme, old(storageTrie), es)
      {
        assert es[i..][0] == Entry(keys[i], vals[i]) && es[i..][1..] == es[i + 1..];
        var slot := scheme.slotOf(keys[i]);
        if vals[i].Some? {
          storageTrie := storageTrie[slot := scheme.encode(keys[i], vals[i].value)];
        } else {
          storageTrie := storageTrie - {slot};
        }
        i := i + 1;
      }
    }

    // The code is loaded on the first read and kept.
    method Get(path: string) returns (r: Found)
      modifies this`code
      ensures r == GetFrom(scheme, old(State()), path)
      ensures State() == old(State()).(code := code) && CodeOf(State()) == CodeOf(old(State()))
    {
      var isBalance, isNonce := HasSuffix(path, PATH_BALANCE), HasSuffix(path, PATH_NONCE);
      var isCode := HasSuffix(path, PATH_CODE);
      if isBalance {
        r := Field(balance);
      } else if isNonce {
        r := Field(nonce);
      } else if isCode {
        if code.None? && codeHash in codeStore {
          code := Some(codeStore[codeHash]);
        }
        r := if code.Some? then Field(code) else Failed;
      } else {
        var slot := scheme.slotOf(path);
        r := if slot in storageTrie then Stored(storageTrie[slot]) else NotFound;
      }
    }
  }

  // ------------------------------------------------------------ reading back

  ghost predicate DistinctSlots(s: Scheme, es: seq<Entry<Value>>) {
    es != [] ==> (forall e :: e in es[1..] ==> s.slotOf(e.key) != s.slotOf(es[0].key)) && DistinctSlots(s, es[1..])
  }

  // At most one root and one entry per reserved suffix, and no slot twice.
  ghost predicate OneEach(s: Scheme, es: seq<Entry<Value>>) {
    && AtMostOne(IsRoot(), es) && AtMostOne(EndsWith(PATH_NONCE), es)
    && AtMostOne(EndsWith(PATH_BALANCE), es) && AtMostOne(EndsWith(PATH_CODE), es)
    && DistinctSlots(s, es)
  }

  // Removing the only match is keeping everything else.
  lemma {:induction false} RemoveOnly(test: KeyTest, es: seq<Entry<Value>>)
    requires AtMostOne(test, es)
    ensures forall e :: e in RemoveFirst(test, es) <==> e in es && !test(e.key)
    ensures forall e :: e in es && test(e.key) ==> FirstMatch(test, es) == Some(e)
    ensures FirstMatch(test, es).Some? ==> FirstMatch(test, es).value in es && test(FirstMatch(test, es).value.key)
  {
    if es != [] {
      RemoveOnly(test, es[1..]);
      if test(es[0].key) {
        assert es == [es[0]] + es[1..];
      }
    }
  }

  lemma {:induction false} RemoveWithin(test: KeyTest, es: seq<Entry<Value>>)
    ensures forall e :: e in RemoveFirst(test, es) ==> e in es
  {
    if es != [] {
      RemoveWithin(test, es[1..]);
    }
  }

  lemma {:induction false} RemoveKeepsSlots(s: Scheme, test: KeyTest, es: seq<Entry<Value>>)
    requires DistinctSlots(s, es)
    ensures DistinctSlots(s, RemoveFirst(test, es))
  {
    if es != [] && !test(es[0].key) {
      RemoveKeepsSlots(s, test, es[1..]);
      RemoveWithin(test, es[1..]);
      assert RemoveFirst(test, es)[1..] == RemoveFirst(test, es[1..]);
    }
  }

  lemma {:induction false} RemoveKeepsAtMostOne(test: KeyTest, other: KeyTest, es: seq<Entry<Value>>)
    requires AtMostOne(other, es)
    ensures AtMostOne(other, RemoveFirst(test, es))
  {
    if es != [] && !test(es[0].key) {
      RemoveKeepsAtMostOne(test, other, es[1..]);
      RemoveWithin(test, es[1..]);
      assert RemoveFirst(test, es)[1..] == RemoveFirst(test, es[1..]);
    }
  }

  lemma RemoveKeepsOneEach(s: Scheme, test: KeyTest, es: seq<Entry<Value>>)
    requires OneEach(s, es)
    ensures OneEach(s, RemoveFirst(test, es))
  {
    RemoveKeepsSlots(s, test, es);
    RemoveKeepsAtMostOne(test, IsRoot(), es);
    RemoveKeepsAtMostOne(test, EndsWith(PATH_NONCE), es);
    RemoveKeepsAtMostOne(test, EndsWith(PATH_BALANCE), es);
    RemoveKeepsAtMostOne(test, EndsWith(PATH_CODE), es);
  }

  lemma {:induction false} TrieElsewhere(s: Scheme, trie: map<Slot, Bytes>, es: seq<Entry<Value>>, slot: Slot)
    requires forall e :: e in es ==> s.slotOf(e.key) != slot
    ensures var t := UpdateTrie(s, trie, es); (slot in t <==> slot in trie) && (slot in t ==> t[slot] == trie[slot])
    decreases |es|
  {
    if es != [] {
      var here := s.slotOf(es[0].key);
      var next := if es[0].val.Some? then trie[here := s.encode(es[0].key, es[0].val.value)] else trie - {here};
      TrieElsewhere(s, next, es[1..], slot);
    }
  }

  lemma {:induction false} TrieAt(s: Scheme, trie: map<Slot, Bytes>, es: seq<Entry<Value>>, e: Entry<Value>)
    requires DistinctSlots(s, es) && e in es
    ensures var t := UpdateTrie(s, trie, es);
            if e.val.Some? then s.slotOf(e.key) in t && t[s.slotOf(e.key)] == s.encode(e.key, e.val.value)
            else s.slotOf(e.key) !in t
    decreases |es|
  {
    var slot := s.slotOf(es[0].key);
    var next := if es[0].val.Some? then trie[slot := s.encode(es[0].key, es[0].val.value)] else trie - {slot};
    if e == es[0] {
      TrieElsewhere(s, next, es[1..], slot);
    } else {
      TrieAt(s, next, es[1..], e);
    }
  }

  // The entries reach the trie sorted by slot; with no slot twice the order is the same to it.
  lemma TrieOrderIndependent(s: Scheme, trie: map<Slot, Bytes>, a: seq<Entry<Value>>, b: seq<Entry<Value>>)
    requires DistinctSlots(s, a) && DistinctSlots(s, b) && forall e :: e in a <==> e in b
    ensures UpdateTrie(s, trie, a) == UpdateTrie(s, trie, b)
  {
    var t, u := UpdateTrie(s, trie, a), UpdateTrie(s, trie, b);
    forall slot ensures (slot in t <==> slot in u) && (slot in t ==> t[slot] == u[slot]) {
      if e :| e in a && s.slotOf(e.key) == slot {
        TrieAt(s, trie, a, e);
        TrieAt(s, trie, b, e);
      } else {
        TrieElsewhere(s, trie, a, slot);
        TrieElsewhere(s, trie, b, slot);
      }
    }
  }

  // Where an entry should be found: in the account's own field, or encoded in the trie.
  function Expected(s: Scheme, e: Entry<Value>): Found {
    if ReservedSuffix(e.key) then Field(e.val)
    else if e.val.Some? then Stored(s.encode(e.key, e.val.value))
    else NotFound
  }

  lemma SuffixChar(k: string, t: string, i: nat)
    requires HasSuffix(k, t) && i < |t|
    ensures k[|k| - |t| + i] == t[i]
  {
    assert k[|k| - |t|..][i] == t[i];
  }

  lemma DifferentSuffixes(k: string)
    ensures HasSuffix(k, PATH_NONCE) ==> !HasSuffix(k, PATH_BALANCE) && !HasSuffix(k, PATH_CODE)
    ensures HasSuffix(k, PATH_BALANCE) ==> !HasSuffix(k, PATH_CODE)
  {
    if HasSuffix(k, PATH_NONCE) {
      SuffixChar(k, PATH_NONCE, 4);
      SuffixChar(k, PATH_NONCE, 2);
    }
    if HasSuffix(k, PATH_BALANCE) {
      SuffixChar(k, PATH_BALANCE, 6);
      SuffixChar(k, PATH_BALANCE, 4);
    }
    if HasSuffix(k, PATH_CODE) {
      SuffixChar(k, PATH_CODE, 3);
    }
  }

  // The four passes, one after the other: what each takes and what the trie gets.
  lemma Passes(s: Scheme, es: seq<Entry<Value>>, e: Entry<Value>)
    requires OneEach(s, es) && e in es && !IsRoot()(e.key)
    ensures var es1 := RemoveFirst(IsRoot(), es);
            var es2 := RemoveFirst(EndsWith(PATH_NONCE), es1);
            var es3 := RemoveFirst(EndsWith(PATH_BALANCE), es2);
            var es4 := RemoveFirst(EndsWith(PATH_CODE), es3);
            && (HasSuffix(e.key, PATH_NONCE) ==> FirstMatch(EndsWith(PATH_NONCE), es1) == Some(e))
            && (HasSuffix(e.key, PATH_BALANCE) ==> FirstMatch(EndsWith(PATH_BALANCE), es2) == Some(e))
            && (HasSuffix(e.key, PATH_CODE) ==> FirstMatch(EndsWith(PATH_CODE), es3) == Some(e))
            && (e in es4 <==> !ReservedSuffix(e.key)) && DistinctSlots(s, es4)
  {
    var es1 := RemoveFirst(IsRoot(), es);
    var es2 := RemoveFirst(EndsWith(PATH_NONCE), es1);
    var es3 := RemoveFirst(EndsWith(PATH_BALANCE), es2);
    RemoveOnly(IsRoot(), es);
    RemoveKeepsOneEach(s, IsRoot(), es);
    RemoveOnly(EndsWith(PATH_NONCE), es1);
    RemoveKeepsOneEach(s, EndsWith(PATH_NONCE), es1);
    RemoveOnly(EndsWith(PATH_BALANCE), es2);
    RemoveKeepsOneEach(s, EndsWith(PATH_BALANCE), es2);
    RemoveOnly(EndsWith(PATH_CODE), es3);
    RemoveKeepsOneEach(s, EndsWith(PATH_CODE), es3);
    DifferentSuffixes(e.key);
  }

  // Every key of an update but the account root is read back with its value.
  lemma ReadBack(s: Scheme, a: AccountState, es: seq<Entry<Value>>, e: Entry<Value>)
    requires OneEach(s, es) && ReservedHaveValues(es) && e in es && !IsRoot()(e.key)
    ensures GetFrom(s, Updated(s, a, es), e.key) == Expected(s, e)
  {
    Passes(s, es, e);
    DifferentSuffixes(e.key);
    var a' := Updated(s, a, es);
    if HasSuffix(e.key, PATH_NONCE) {
    } else if HasSuffix(e.key, PATH_BALANCE) {
    } else if HasSuffix(e.key, PATH_CODE) {
      var i :| 0 <= i < |es| && es[i] == e;
      assert e.val.Some?;
    } else {
      var es2 := RemoveFirst(EndsWith(PATH_NONCE), RemoveFirst(IsRoot(), es));
      var es4 := RemoveFirst(EndsWith(PATH_CODE), RemoveFirst(EndsWith(PATH_BALANCE), es2));
      TrieAt(s, a.trie, es4, e);
    }
  }

  // ------------------------------------------------------------ what an update leaves alone

  // A storage path whose slot no entry has reads as before.
  lemma UpdateKeepsStorage(s: Scheme, a: AccountState, es: seq<Entry<Value>>, q: string)
    requires !ReservedSuffix(q) && forall e :: e in es ==> s.slotOf(e.key) != s.slotOf(q)
    ensures GetFrom(s, Updated(s, a, es), q) == GetFrom(s, a, q)
  {
    var es1 := RemoveFirst(IsRoot(), es);
    var es2 := RemoveFirst(EndsWith(PATH_NONCE), es1);
    var es3 := RemoveFirst(EndsWith(PATH_BALANCE), es2);
    RemoveWithin(IsRoot(), es);
    RemoveWithin(EndsWith(PATH_NONCE), es1);
    RemoveWithin(EndsWith(PATH_BALANCE), es2);
    RemoveWithin(EndsWith(PATH_CODE), es3);
    TrieElsewhere(s, a.trie, RemoveFirst(EndsWith(PATH_CODE), es3), s.slotOf(q));
  }

  lemma {:induction false} NoneMatches(test: KeyTest, es: seq<Entry<Value>>)
    requires forall e :: e in es ==> !test(e.key)
    ensures FirstMatch(test, es) == None
  {
    if es != [] {
      NoneMatches(test, es[1..]);
    }
  }

  // A reserved path whose suffix no entry has reads as before, loaded or not.
  lemma UpdateKeepsReserved(s: Scheme, a: AccountState, es: seq<Entry<Value>>, q: string)
    requires ReservedSuffix(q) && forall e :: e in es ==> !HasSuffix(e.key, ReservedOf(q))
    ensures GetFrom(s, Updated(s, a, es), q) == GetFrom(s, a, q)
    ensures HasSuffix(q, PATH_CODE) ==> CodeUntouched(a, Updated(s, a, es))
  {
    RemoveWithin(IsRoot(), es);
    NoneMatches(EndsWith(ReservedOf(q)), RemoveFirst(IsRoot(), es));
    DifferentSuffixes(q);
    if HasSuffix(q, PATH_NONCE) {
      NonceKept(s, a, es);
    } else if HasSuffix(q, PATH_BALANCE) {
      BalanceKept(s, a, es);
    } else {
      CodeKept(s, a, es);
    }
  }

  lemma NonceKept(s: Scheme, a: AccountState, es: seq<Entry<Value>>)
    requires FirstReserved(PATH_NONCE, es) == None
    ensures Updated(s, a, es).nonce == a.nonce
  {
  }

  lemma BalanceKept(s: Scheme, a: AccountState, es: seq<Entry<Value>>)
    requires FirstReserved(PATH_BALANCE, es) == None
    ensures Updated(s, a, es).balance == a.balance
  {
    PassesFindFirsts(es);
  }

  lemma CodeKept(s: Scheme, a: AccountState, es: seq<Entry<Value>>)
    requires FirstReserved(PATH_CODE, es) == None
    ensures CodeUntouched(a, Updated(s, a, es))
  {
    PassesFindFirsts(es);
  }

  ghost predicate CodeUntouched(a: AccountState, b: AccountState) {
    a.code == b.code && a.codeHash == b.codeHash && a.codeStore == b.codeStore
  }

  lemma {:induction false} SlotsDiffer(s: Scheme, es: seq<Entry<Value>>, e: Entry<Value>, d: Entry<Value>)
    requires DistinctSlots(s, es) && e in es && d in es && e != d
    ensures s.slotOf(e.key) != s.slotOf(d.key)
  {
    if e != es[0] && d != es[0] {
      SlotsDiffer(s, es[1..], e, d);
    }
  }

  // The account root is taken out and not stored: its path reads as before.
  lemma RootIsNotStored(s: Scheme, a: AccountState, es: seq<Entry<Value>>, root: Entry<Value>)
    requires OneEach(s, es) && root in es && IsRoot()(root.key) && !ReservedSuffix(root.key)
    ensures GetFrom(s, Updated(s, a, es), root.key) == GetFrom(s, a, root.key)
  {
    var es1 := RemoveFirst(IsRoot(), es);
    RemoveOnly(IsRoot(), es);
    forall e | e in es1 ensures s.slotOf(e.key) != s.slotOf(root.key) && !IsRoot()(e.key) {
      SlotsDiffer(s, es, e, root);
    }
    RemoveAbsent(IsRoot(), es1);
    UpdateKeepsStorage(s, a, es1, root.key);
    assert Updated(s, a, es) == Updated(s, a, es1);
  }

  lemma {:induction false} RemoveAbsent(test: KeyTest, es: seq<Entry<Value>>)
    requires forall e :: e in es ==> !test(e.key)
    ensures RemoveFirst(test, es) == es
  {
    if es != [] {
      RemoveAbsent(test, es[1..]);
    }
  }

  // Root means the path of the account itself.
  lemma RootIsTheAccount(addr: string, rest: string)
    requires IsAddress(addr)
    ensures IsRoot()(AccountPath(addr, rest)) <==> rest == ""
  {
  }

  // ------------------------------------------------------------ the code database

  // Code written by an update is in the database: dropped from memory it is read back.
  lemma CodeReloads(s: Scheme, a: AccountState, es: seq<Entry<Value>>, e: Entry<Value>)
    requires OneEach(s, es) && ReservedHaveValues(es) && e in es && !IsRoot()(e.key)
    requires HasSuffix(e.key, PATH_CODE)
    ensures GetFrom(s, Updated(s, a, es).(code := None), e.key) == Field(e.val)
  {
    Passes(s, es, e);
    DifferentSuffixes(e.key);
    var i :| 0 <= i < |es| && es[i] == e;
    assert e.val.Some?;
  }

  // Code that is not in memory is the database's, and only a missing entry fails.
  lemma UnloadedCode(s: Scheme, a: AccountState, path: string)
    requires a.code.None? && HasSuffix(path, PATH_CODE)
    ensures GetFrom(s, a, path) == Failed <==> a.codeHash !in a.codeStore
    ensures a.codeHash in a.codeStore ==> GetFrom(s, a, path) == Field(Some(a.codeStore[a.codeHash]))
  {
    DifferentSuffixes(path);
  }

  // No update takes other code out of the database.
  lemma CodeStays(s: Scheme, a: AccountState, es: seq<Entry<Value>>, d: Digest)
    requires d in a.codeStore
    requires forall e :: e in es && HasSuffix(e.key, PATH_CODE) && e.val.Some? ==> s.hash(e.val.value) != d
    ensures d in Updated(s, a, es).codeStore && Updated(s, a, es).codeStore[d] == a.codeStore[d]
  {
    var es1 := RemoveFirst(IsRoot(), es);
    var es2 := RemoveFirst(EndsWith(PATH_NONCE), es1);
    var es3 := RemoveFirst(EndsWith(PATH_BALANCE), es2);
    RemoveWithin(IsRoot(), es);
    RemoveWithin(EndsWith(PATH_NONCE), es1);
    RemoveWithin(EndsWith(PATH_BALANCE), es2);
    FirstMatchWithin(EndsWith(PATH_CODE), es3);
  }

  lemma {:induction false} FirstMatchWithin(test: KeyTest, es: seq<Entry<Value>>)
    ensures FirstMatch(test, es).Some? ==> FirstMatch(test, es).value in es && test(FirstMatch(test, es).value.key)
  {
    if es != [] && !test(es[0].key) {
      FirstMatchWithin(test, es[1..]);
    }
  }

  // ------------------------------------------------------------ several reserved entries

  lemma {:induction false} FirstMatchUnaffected(test: KeyTest, other: KeyTest, es: seq<Entry<Value>>)
    requires forall e :: e in es && other(e.key) ==> !test(e.key)
    ensures FirstMatch(test, RemoveFirst(other, es)) == FirstMatch(test, es)
  {
    if es != [] {
      if other(es[0].key) {
        assert !test(es[0].key);
      } else {
        FirstMatchUnaffected(test, other, es[1..]);
        assert RemoveFirst(other, es)[1..] == RemoveFirst(other, es[1..]);
      }
    }
  }

  // The entry the account's field is set from: the first with that suffix, the root aside.
  function FirstReserved(suffix: string, es: seq<Entry<Value>>): Option<Entry<Value>> {
    FirstMatch(EndsWith(suffix), RemoveFirst(IsRoot(), es))
  }

  function ReservedOf(path: string): string
    requires ReservedSuffix(path)
  {
    if HasSuffix(path, PATH_NONCE) then PATH_NONCE
    else if HasSuffix(path, PATH_BALANCE) then PATH_BALANCE
    else PATH_CODE
  }

  lemma {:induction false} RemoveKeepsOthers(test: KeyTest, es: seq<Entry<Value>>, e: Entry<Value>)
    requires e in es && !test(e.key)
    ensures e in RemoveFirst(test, es)
  {
    if !test(es[0].key) && e != es[0] {
      RemoveKeepsOthers(test, es[1..], e);
    }
  }

  lemma {:induction false} FirstMatchFound(test: KeyTest, es: seq<Entry<Value>>, e: Entry<Value>)
    requires e in es && test(e.key)
    ensures FirstMatch(test, es).Some? && FirstMatch(test, es).value in es && test(FirstMatch(test, es).value.key)
  {
    if !test(es[0].key) {
      FirstMatchFound(test, es[1..], e);
    }
  }

  lemma ExclusiveTests(es: seq<Entry<Value>>)
    ensures forall e :: e in es && EndsWith(PATH_NONCE)(e.key) ==>
              !EndsWith(PATH_BALANCE)(e.key) && !EndsWith(PATH_CODE)(e.key)
    ensures forall e :: e in es && EndsWith(PATH_BALANCE)(e.key) ==> !EndsWith(PATH_CODE)(e.key)
  {
    forall e | e in es
      ensures EndsWith(PATH_NONCE)(e.key) ==>
              !EndsWith(PATH_BALANCE)(e.key) && !EndsWith(PATH_CODE)(e.key)
      ensures EndsWith(PATH_BALANCE)(e.key) ==> !EndsWith(PATH_CODE)(e.key)
    {
      DifferentSuffixes(e.key);
    }
  }

  // No pass takes an entry another pass is looking for.
  lemma PassesFindFirsts(es: seq<Entry<Value>>)
    ensures var es1 := RemoveFirst(IsRoot(), es);
            var es2 := RemoveFirst(EndsWith(PATH_NONCE), es1);
            var es3 := RemoveFirst(EndsWith(PATH_BALANCE), es2);
            && FirstMatch(EndsWith(PATH_BALANCE), es2) == FirstReserved(PATH_BALANCE, es)
            && FirstMatch(EndsWith(PATH_CODE), es3) == FirstReserved(PATH_CODE, es)
  {
    var es1 := RemoveFirst(IsRoot(), es);
    var es2 := RemoveFirst(EndsWith(PATH_NONCE), es1);
    ExclusiveTests(es1);
    ExclusiveTests(es2);
    FirstMatchUnaffected(EndsWith(PATH_BALANCE), EndsWith(PATH_NONCE), es1);
    FirstMatchUnaffected(EndsWith(PATH_CODE), EndsWith(PATH_NONCE), es1);
    FirstMatchUnaffected(EndsWith(PATH_CODE), EndsWith(PATH_BALANCE), es2);
  }

  lemma FirstReservedFound(es: seq<Entry<Value>>, e: Entry<Value>)
    requires ReservedHaveValues(es) && e in es && !IsRoot()(e.key) && ReservedSuffix(e.key)
    ensures FirstReserved(ReservedOf(e.key), es).Some? && FirstReserved(ReservedOf(e.key), es).value.val.Some?
  {
    var suffix := ReservedOf(e.key);
    RemoveKeepsOthers(IsRoot(), es, e);
    RemoveWithin(IsRoot(), es);
    FirstMatchFound(EndsWith(suffix), RemoveFirst(IsRoot(), es), e);
    var first := FirstReserved(suffix, es).value;
    var i :| 0 <= i < |es| && es[i] == first;
  }

  // With any number of reserved entries, a reserved path reads the first one with its
  // suffix; so an entry is read back exactly when it carries that one's value.
  lemma ReservedReadBackIff(s: Scheme, a: AccountState, es: seq<Entry<Value>>, e: Entry<Value>)
    requires ReservedHaveValues(es) && e in es && !IsRoot()(e.key) && ReservedSuffix(e.key)
    ensures FirstReserved(ReservedOf(e.key), es).Some?
    ensures GetFrom(s, Updated(s, a, es), e.key) == Expected(s, e)
       <==> FirstReserved(ReservedOf(e.key), es).value.val == e.val
  {
    FirstReservedFound(es, e);
    PassesFindFirsts(es);
    DifferentSuffixes(e.key);
  }

  // For instance a container entry that happens to be called "nonce".
  lemma SecondNonceIsShadowed(s: Scheme, a: AccountState, first: Entry<Value>, second: Entry<Value>)
    requires HasSuffix(first.key, PATH_NONCE) && HasSuffix(second.key, PATH_NONCE)
    requires !IsRoot()(first.key) && !IsRoot()(second.key)
    requires first.val.Some? && second.val.Some? && first.val != second.val
    ensures GetFrom(s, Updated(s, a, [first, second]), second.key) != Expected(s, second)
  {
    var es := [first, second];
    NoMatch(IsRoot(), es);
    assert FirstMatch(EndsWith(PATH_NONCE), es) == Some(first);
    ReservedReadBackIff(s, a, es, second);
  }
}
