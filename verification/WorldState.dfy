/**
 EthWorldState.persistToEthStore: the window of recent block roots, and the grouping
 of dirty accounts so that no two workers touch one account.
 */
module WorldState {
  import opened Seqs
  import opened Accounts

  type Hash(==, !new)

  const WINDOW: nat := 1024

  // ------------------------------------------------------------ the root window

  ghost predicate IsMin(m: nat, s: set<nat>) {
    m in s && forall x :: x in s ==> m <= x
  }

  lemma {:induction false} MinExists(s: set<nat>)
    requires s != {}
    ensures exists m: nat :: IsMin(m, s)
  {
    var x :| x in s;
    if s == {x} {
      assert IsMin(x, s);
    } else {
      MinExists(s - {x});
      var m: nat :| IsMin(m, s - {x});
      assert forall y :: y in s ==> y == x || y in s - {x};
      assert IsMin(if m < x then m else x, s);
    }
  }

  ghost function Oldest(roots: map<nat, Hash>): (m: nat)
    requires roots != map[]
    ensures IsMin(m, roots.Keys)
  {
    assert roots.Keys != {} by {
      var k :| k in roots;
      assert k in roots.Keys;
    }
    MinExists(roots.Keys);
    var m: nat :| IsMin(m, roots.Keys);
    m
  }

  lemma RemoveShrinks(roots: map<nat, Hash>, k: nat)
    requires k in roots
    ensures |roots - {k}| == |roots| - 1
  {
    assert (roots - {k}).Keys == roots.Keys - {k};
    assert |(roots - {k}).Keys| == |roots.Keys| - 1;
  }

  // Drop the oldest until there is room.
  ghost function Trimmed(roots: map<nat, Hash>): (r: map<nat, Hash>)
    ensures |r| < WINDOW
    decreases |roots|
  {
    if |roots| < WINDOW then roots
    else
      assert roots != map[];
      RemoveShrinks(roots, Oldest(roots));
      Trimmed(roots - {Oldest(roots)})
  }

  ghost function Recorded(roots: map<nat, Hash>, block: nat, root: Hash): map<nat, Hash> {
    Trimmed(roots)[block := root]
  }

  method MinKey(s: set<nat>) returns (m: nat)
    requires s != {}
    ensures IsMin(m, s)
  {
    m :| m in s;
    var todo := s - {m};
    while todo != {}
      invariant todo <= s && m in s && m !in todo
      invariant forall x :: x in s && x !in todo ==> m <= x
      decreases |todo|
    {
      var x :| x in todo;
      if x < m {
        m := x;
      }
      todo := todo - {x};
    }
  }

  lemma MinUnique(a: nat, b: nat, s: set<nat>)
    requires IsMin(a, s) && IsMin(b, s)
    ensures a == b
  {
  }

  class EthWorldState {
    var blockRoots: map<nat, Hash>

    constructor ()
      ensures blockRoots == map[]
    {
      blockRoots := map[];
    }

    method RecordRoot(block: nat, root: Hash)
      modifies this
      ensures blockRoots == Recorded(old(blockRoots), block, root)
      ensures |blockRoots| <= WINDOW
    {
      while |blockRoots| >= WINDOW
        invariant Trimmed(blockRoots) == Trimmed(old(blockRoots))
        decreases |blockRoots|
      {
        assert blockRoots.Keys != {};
        var m := MinKey(blockRoots.Keys);
        MinUnique(m, Oldest(blockRoots), blockRoots.Keys);
        RemoveShrinks(blockRoots, m);
        blockRoots := blockRoots - {m};
      }
      ghost var trimmed := blockRoots;
      blockRoots := blockRoots[block := root];
      assert blockRoots.Keys == trimmed.Keys + {block};
    }
  }

  datatype Call = Call(block: nat, root: Hash)

  ghost function RootsAfter(calls: seq<Call>): map<nat, Hash> {
    if calls == [] then map[]
    else Recorded(RootsAfter(calls[..|calls| - 1]), calls[|calls| - 1].block, calls[|calls| - 1].root)
  }

  // Never more than the window, in whatever order the blocks come.
  lemma {:induction false} WindowBound(calls: seq<Call>)
    ensures |RootsAfter(calls)| <= 1024
  {
    if calls != [] {
      var trimmed := Trimmed(RootsAfter(calls[..|calls| - 1]));
      var b := calls[|calls| - 1].block;
      assert RootsAfter(calls).Keys == trimmed.Keys + {b};
    }
  }

  ghost predicate Increasing(calls: seq<Call>) {
    forall i, j :: 0 <= i < j < |calls| ==> calls[i].block < calls[j].block
  }

  ghost function RootMap(calls: seq<Call>): map<nat, Hash> {
    if calls == [] then map[]
    else RootMap(calls[..|calls| - 1])[calls[|calls| - 1].block := calls[|calls| - 1].root]
  }

  function Latest(calls: seq<Call>): seq<Call> {
    if |calls| <= WINDOW then calls else calls[|calls| - WINDOW..]
  }

  lemma {:induction false} RootMapBounds(calls: seq<Call>)
    requires Increasing(calls) && calls != []
    ensures calls[0].block in RootMap(calls)
    ensures forall b: nat :: b in RootMap(calls) ==> calls[0].block <= b <= calls[|calls| - 1].block
  {
    var init := calls[..|calls| - 1];
    if init != [] {
      RootMapBounds(init);
      assert calls[0].block < calls[|calls| - 1].block && init[|init| - 1].block < calls[|calls| - 1].block;
    }
  }

  lemma {:induction false} RootMapSize(calls: seq<Call>)
    requires Increasing(calls)
    ensures |RootMap(calls)| == |calls|
  {
    if calls != [] {
      var init, last := calls[..|calls| - 1], calls[|calls| - 1];
      RootMapSize(init);
      if init != [] {
        RootMapBounds(init);
        assert init[|init| - 1].block < last.block;
      }
      assert RootMap(calls).Keys == RootMap(init).Keys + {last.block};
    }
  }

  lemma RootMapOldest(calls: seq<Call>)
    requires Increasing(calls) && calls != []
    ensures RootMap(calls) != map[] && Oldest(RootMap(calls)) == calls[0].block
  {
    RootMapBounds(calls);
    assert IsMin(calls[0].block, RootMap(calls).Keys);
    MinUnique(calls[0].block, Oldest(RootMap(calls)), RootMap(calls).Keys);
  }

  lemma {:induction false} RootMapTail(calls: seq<Call>)
    requires Increasing(calls) && calls != []
    ensures RootMap(calls) - {calls[0].block} == RootMap(calls[1..])
  {
    var n := |calls| - 1;
    if n > 0 {
      RootMapTail(calls[..n]);
      assert calls[..n][1..] == calls[1..][..n - 1];
      assert calls[0].block != calls[n].block;
      assert RootMap(calls) - {calls[0].block}
          == (RootMap(calls[..n]) - {calls[0].block})[calls[n].block := calls[n].root];
    }
  }

  // A full window makes room for one root by dropping its first.
  lemma TrimFull(calls: seq<Call>)
    requires Increasing(calls) && |calls| == WINDOW
    ensures Trimmed(RootMap(calls)) == RootMap(calls[1..])
  {
    RootMapSize(calls);
    RootMapSize(calls[1..]);
    RootMapOldest(calls);
    RootMapTail(calls);
  }

  lemma LatestSnoc(calls: seq<Call>)
    requires calls != []
    ensures var kept := Latest(calls[..|calls| - 1]);
            Latest(calls) == (if |kept| < WINDOW then kept else kept[1..]) + [calls[|calls| - 1]]
  {
  }

  lemma RootMapSnoc(calls: seq<Call>, c: Call)
    ensures RootMap(calls + [c]) == RootMap(calls)[c.block := c.root]
  {
    assert (calls + [c])[..|calls|] == calls;
  }

  // Under strictly increasing block numbers the window is exactly the latest roots.
  lemma {:induction false} WindowIsLatest(calls: seq<Call>)
    requires Increasing(calls)
    ensures RootsAfter(calls) == RootMap(Latest(calls))
  {
    if calls != [] {
      var init, last := calls[..|calls| - 1], calls[|calls| - 1];
      WindowIsLatest(init);
      var kept := Latest(init);
      LatestSnoc(calls);
      if |kept| < WINDOW {
        RootMapSize(kept);
        RootMapSnoc(kept, last);
      } else {
        TrimFull(kept);
        RootMapSnoc(kept[1..], last);
      }
    }
  }

  lemma {:induction false} RootMapAt(calls: seq<Call>, i: nat)
    requires Increasing(calls) && i < |calls|
    ensures calls[i].block in RootMap(calls) && RootMap(calls)[calls[i].block] == calls[i].root
  {
    var n := |calls| - 1;
    if i < n {
      RootMapAt(calls[..n], i);
      assert calls[i].block < calls[n].block;
    }
  }

  // The roots of the calls from `n` on: theirs and no earlier one's.
  lemma RootsFrom(calls: seq<Call>, n: nat, i: nat)
    requires Increasing(calls) && i < |calls| && n <= |calls|
    ensures Increasing(calls[n..])
    ensures i >= n ==> calls[i].block in RootMap(calls[n..]) && RootMap(calls[n..])[calls[i].block] == calls[i].root
    ensures i < n ==> calls[i].block !in RootMap(calls[n..])
  {
    var tail := calls[n..];
    forall j, k | 0 <= j < k < |tail| ensures tail[j].block < tail[k].block {
      assert calls[n + j].block < calls[n + k].block;
    }
    if i >= n {
      RootMapAt(tail, i - n);
      assert tail[i - n] == calls[i];
    } else if tail != [] {
      RootMapBounds(tail);
      assert tail[0] == calls[n] && calls[i].block < calls[n].block;
    }
  }

  // So a call's root is kept, unchanged, exactly while it is among the last 1024.
  lemma WindowHolds(calls: seq<Call>, i: nat)
    requires Increasing(calls) && i < |calls|
    ensures calls[i].block in RootsAfter(calls) <==> |calls| - i <= 1024
    ensures calls[i].block in RootsAfter(calls) ==> RootsAfter(calls)[calls[i].block] == calls[i].root
  {
    WindowIsLatest(calls);
    RootsFrom(calls, if |calls| <= WINDOW then 0 else |calls| - WINDOW, i);
    assert calls[0..] == calls;
  }

  // ------------------------------------------------------------ grouping the dirty accounts

  function OfAddress(addr: string): Account -> bool {
    (a: Account) => a.addr == addr
  }

  function AddressIn(addrs: set<string>): Account -> bool {
    (a: Account) => a.addr in addrs
  }

  function NonNil(dirty: seq<Account?>): seq<Account> {
    if dirty == [] then []
    else if dirty[0] == null then NonNil(dirty[1..])
    else [dirty[0]] + NonNil(dirty[1..])
  }

  function GroupAt(groups: map<string, seq<Account>>, addr: string): seq<Account> {
    if addr in groups then groups[addr] else []
  }

  ghost predicate Grouped(groups: map<string, seq<Account>>, accounts: seq<Account>) {
    && (forall addr :: GroupAt(groups, addr) == Filter(OfAddress(addr), accounts))
    && (forall addr :: addr in groups ==> groups[addr] != [])
  }

  lemma GroupedSnoc(groups: map<string, seq<Account>>, accounts: seq<Account>, a: Account)
    requires Grouped(groups, accounts)
    ensures Grouped(groups[a.addr := GroupAt(groups, a.addr) + [a]], accounts + [a])
  {
    var more := groups[a.addr := GroupAt(groups, a.addr) + [a]];
    forall addr ensures GroupAt(more, addr) == Filter(OfAddress(addr), accounts + [a]) {
      assert GroupAt(groups, addr) == Filter(OfAddress(addr), accounts);
      FilterSnoc(OfAddress(addr), accounts, a);
    }
  }

  lemma {:induction false} NonNilSnoc(dirty: seq<Account?>, a: Account?)
    ensures NonNil(dirty + [a]) == NonNil(dirty) + (if a == null then [] else [a])
  {
    if dirty == [] {
      assert dirty + [a] == [a] && [a][1..] == [];
    } else {
      NonNilSnoc(dirty[1..], a);
      assert (dirty + [a])[0] == dirty[0] && (dirty + [a])[1..] == dirty[1..] + [a];
    }
  }

  method GroupByAddress(dirty: seq<Account?>) returns (groups: map<string, seq<Account>>)
    ensures Grouped(groups, NonNil(dirty))
  {
    groups := map[];
    var i := 0;
    while i < |dirty|
      invariant 0 <= i <= |dirty|
      invariant Grouped(groups, NonNil(dirty[..i]))
    {
      NonNilSnoc(dirty[..i], dirty[i]);
      assert dirty[..i + 1] == dirty[..i] + [dirty[i]];
      if dirty[i] == null {
        assert NonNil(dirty[..i + 1]) == NonNil(dirty[..i]);
      } else {
        var a: Account := dirty[i];
        assert NonNil(dirty[..i + 1]) == NonNil(dirty[..i]) + [a];
        GroupedSnoc(groups, NonNil(dirty[..i]), a);
        groups := groups[a.addr := GroupAt(groups, a.addr) + [a]];
      }
      i := i + 1;
    }
    assert dirty[..i] == dirty;
  }

  lemma {:induction false} SplitByAddress(addrs: set<string>, addr: string, accounts: seq<Account>)
    requires addr !in addrs
    ensures multiset(Filter(AddressIn(addrs + {addr}), accounts))
         == multiset(Filter(AddressIn(addrs), accounts)) + multiset(Filter(OfAddress(addr), accounts))
  {
    if accounts != [] {
      SplitByAddress(addrs, addr, accounts[1..]);
    }
  }

  // One address per group.
  ghost predicate OneAddress(group: seq<Account>) {
    group != [] && forall j :: 0 <= j < |group| ==> group[j].addr == group[0].addr
  }

  lemma GroupsHaveOneAddress(groups: map<string, seq<Account>>, accounts: seq<Account>, addr: string)
    requires Grouped(groups, accounts) && addr in groups
    ensures OneAddress(groups[addr]) && groups[addr][0].addr == addr
  {
    assert GroupAt(groups, addr) == Filter(OfAddress(addr), accounts);
    FilterElements(OfAddress(addr), accounts);
  }

  lemma AllGrouped(groups: map<string, seq<Account>>, accounts: seq<Account>)
    requires Grouped(groups, accounts)
    ensures Filter(AddressIn(groups.Keys), accounts) == accounts
  {
    forall x | x in accounts ensures AddressIn(groups.Keys)(x) {
      assert GroupAt(groups, x.addr) == Filter(OfAddress(x.addr), accounts);
      FilterMembers(OfAddress(x.addr), accounts);
      assert OfAddress(x.addr)(x);
    }
    FilterAll(AddressIn(groups.Keys), accounts);
  }

  // The keys of a map, in whatever order it gives them.
  method KeysInSomeOrder(keys: set<string>) returns (order: seq<string>)
    ensures Distinct(order) && (set k | k in order) == keys
  {
    order := [];
    var todo := keys;
    while todo != {}
      invariant todo <= keys && Distinct(order) && (set k | k in order) == keys - todo
      decreases |todo|
    {
      var k :| k in todo;
      assert k !in (set x | x in order);
      assert (set x | x in order + [k]) == (set x | x in order) + {k};
      order := order + [k];
      todo := todo - {k};
    }
  }

  function ValuesAt(groups: map<string, seq<Account>>, order: seq<string>): (r: seq<seq<Account>>)
    requires forall k :: k in order ==> k in groups
    ensures |r| == |order| && forall i :: 0 <= i < |order| ==> r[i] == groups[order[i]]
  {
    seq(|order|, i requires 0 <= i < |order| => groups[order[i]])
  }

  lemma {:induction false} GroupsPartition(groups: map<string, seq<Account>>, accounts: seq<Account>,
                                           order: seq<string>)
    requires Grouped(groups, accounts) && Distinct(order) && forall k :: k in order ==> k in groups
    ensures multiset(Flatten(ValuesAt(groups, order))) == multiset(Filter(AddressIn((set k | k in order)), accounts))
  {
    if order == [] {
      FilterNone(AddressIn({}), accounts);
      assert (set k | k in order) == {};
    } else {
      var n := |order| - 1;
      var addr := order[n];
      GroupsPartition(groups, accounts, order[..n]);
      assert GroupAt(groups, addr) == Filter(OfAddress(addr), accounts);
      FlattenSnoc(ValuesAt(groups, order[..n]), groups[addr]);
      assert ValuesAt(groups, order) == ValuesAt(groups, order[..n]) + [groups[addr]];
      SplitByAddress((set k | k in order[..n]), addr, accounts);
      assert (set k | k in order) == (set k | k in order[..n]) + {addr};
    }
  }

  // The groups hold every non-nil dirty account as often as it was listed; each group
  // has one address, and no two groups the same.
  method UniqueDirties(dirty: seq<Account?>) returns (out: seq<seq<Account>>)
    ensures multiset(Flatten(out)) == multiset(NonNil(dirty))
    ensures forall i :: 0 <= i < |out| ==> OneAddress(out[i])
    ensures forall i, j :: 0 <= i < j < |out| ==>
              OneAddress(out[i]) && OneAddress(out[j]) && out[i][0].addr != out[j][0].addr
  {
    var groups := GroupByAddress(dirty);
    var order := KeysInSomeOrder(groups.Keys);
    assert forall k :: k in order ==> k in groups by {
      assert forall k :: k in order ==> k in (set k | k in order);
    }
    out := ValuesAt(groups, order);
    GroupsPartition(groups, NonNil(dirty), order);
    AllGrouped(groups, NonNil(dirty));
    forall i | 0 <= i < |out| ensures OneAddress(out[i]) && out[i][0].addr == order[i] {
      GroupsHaveOneAddress(groups, NonNil(dirty), order[i]);
    }
  }
}
