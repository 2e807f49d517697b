/**
 What one Finalize call does to the shared cells: transitions of transactions off
 the whitelist are dropped, and the admitted transitions of each path are sorted
 and merged into one survivor.  The effect on a cell is given cell by cell, with no
 order among the groups.
 */
module Finalization {
  import opened Cells
  import opened Seqs
  import opened DeltaSequences
  import opened Batches

  // The cells imported since the last Finalize: each once, none flagged.
  ghost predicate WellIndexed(h: Heap, pending: seq<StateCell>) {
    && Distinct(pending)
    && forall c :: c in pending ==> c in h && h[c].path.Some?
  }

  // An empty whitelist admits everything; a cell that skips the conflict check is
  // not in the transaction index, so no whitelist removes it.
  predicate Admitted(whitelist: seq<nat>, c: StateCell) {
    whitelist == [] || c.skipConflictCheck || c.tx in whitelist
  }

  function AdmittedOn(h: Heap, whitelist: seq<nat>, p: string): StateCell -> bool {
    (c: StateCell) => c in h && h[c].path == Some(p) && Admitted(whitelist, c)
  }

  // The admitted transitions of path `p`, in import order.
  function Group(h: Heap, pending: seq<StateCell>, whitelist: seq<nat>, p: string): seq<StateCell> {
    Filter(AdmittedOn(h, whitelist, p), pending)
  }

  lemma GroupMembers(h: Heap, pending: seq<StateCell>, whitelist: seq<nat>, p: string)
    ensures forall c :: c in Group(h, pending, whitelist, p) ==>
              c in pending && c in h && h[c].path == Some(p) && Admitted(whitelist, c)
    ensures forall c :: c in pending && c in h && h[c].path == Some(p) && Admitted(whitelist, c) ==>
              c in Group(h, pending, whitelist, p)
    ensures forall c :: c in Sorted(Group(h, pending, whitelist, p)) <==> c in Group(h, pending, whitelist, p)
  {
    FilterMembers(AdmittedOn(h, whitelist, p), pending);
    SortedMembers(Group(h, pending, whitelist, p));
  }

  // The group of a path, sorted: the first cell survives and takes the merged value.
  function SortedGroup(h: Heap, pending: seq<StateCell>, whitelist: seq<nat>, p: string): (s: seq<StateCell>)
    ensures s == [] <==> Group(h, pending, whitelist, p) == []
    ensures forall c :: c in s ==> c in h && c in pending
  {
    FilterElements(AdmittedOn(h, whitelist, p), pending);
    SortedElements(Group(h, pending, whitelist, p));
    Sorted(Group(h, pending, whitelist, p))
  }

  function FinalizedState(h: Heap, pending: seq<StateCell>, whitelist: seq<nat>, f: Apply, c: StateCell): CellState
    requires c in h && WellIndexed(h, pending)
  {
    if c !in pending then h[c]
    else if !Admitted(whitelist, c) then h[c].(path := None)
    else
      var s := SortedGroup(h, pending, whitelist, h[c].path.value);
      GroupMembers(h, pending, whitelist, h[c].path.value);
      if c == s[0] then h[c].(value := Merged(f, h, s)) else h[c].(path := None)
  }

  function FinalizedHeap(h: Heap, pending: seq<StateCell>, whitelist: seq<nat>, f: Apply): Heap
    requires WellIndexed(h, pending)
  {
    map c | c in h :: FinalizedState(h, pending, whitelist, f, c)
  }

  function PathsOf(h: Heap, pending: seq<StateCell>): set<string> {
    set c | c in pending && c in h && h[c].path.Some? :: h[c].path.value
  }

  // The reference result of the call: the merged value of every path whose survivor
  // passes the storage writers' filter.
  function RoundOf(h: Heap, pending: seq<StateCell>, whitelist: seq<nat>, f: Apply): Round<Value> {
    map p | p in PathsOf(h, pending)
            && SortedGroup(h, pending, whitelist, p) != []
            && !SortedGroup(h, pending, whitelist, p)[0].blockBound
          :: Merged(f, h, SortedGroup(h, pending, whitelist, p))
  }

  // The survivors themselves, which is what the execution cache publishes.
  function SurvivorsOf(h: Heap, pending: seq<StateCell>, whitelist: seq<nat>): Round<StateCell> {
    map p | p in PathsOf(h, pending) && SortedGroup(h, pending, whitelist, p) != []
          :: Some(SortedGroup(h, pending, whitelist, p)[0])
  }

  // The survivors' merged values, whether or not they pass the filter.
  function ValuesOf(h: Heap, pending: seq<StateCell>, whitelist: seq<nat>, f: Apply): Round<Value> {
    map p | p in PathsOf(h, pending) && SortedGroup(h, pending, whitelist, p) != []
          :: Merged(f, h, SortedGroup(h, pending, whitelist, p))
  }

  lemma NonemptyGroupPath(h: Heap, pending: seq<StateCell>, whitelist: seq<nat>, p: string)
    requires SortedGroup(h, pending, whitelist, p) != []
    ensures p in PathsOf(h, pending)
  {
    GroupMembers(h, pending, whitelist, p);
    var c := SortedGroup(h, pending, whitelist, p)[0];
    assert c in SortedGroup(h, pending, whitelist, p);
    assert c in pending && h[c].path == Some(p);
  }

  // --------------------------------------------------- one survivor per path

  // After the call a pending cell still has path `p` exactly when it is the first of
  // the sorted group of `p`; then it carries the merged value.
  lemma SurvivorIff(h: Heap, pending: seq<StateCell>, whitelist: seq<nat>, f: Apply, c: StateCell, p: string)
    requires WellIndexed(h, pending) && c in pending
    ensures var s := SortedGroup(h, pending, whitelist, p);
            var h' := FinalizedHeap(h, pending, whitelist, f);
            && (h'[c].path == Some(p) <==> s != [] && c == s[0])
            && (s != [] && c == s[0] ==> h'[c].value == Merged(f, h, s))
  {
    GroupMembers(h, pending, whitelist, p);
    var s := SortedGroup(h, pending, whitelist, p);
    if s != [] && c == s[0] {
      assert c in s;
    }
  }

  // The survivor's value after the call: its own with every later admitted transition
  // applied to it, one after the other.
  lemma SurvivorMerges(h: Heap, pending: seq<StateCell>, whitelist: seq<nat>, f: Apply, p: string)
    requires WellIndexed(h, pending) && SortedGroup(h, pending, whitelist, p) != []
    ensures var s := SortedGroup(h, pending, whitelist, p);
            exists vs: seq<Val> ::
              && |vs| == |s| && vs[0] == h[s[0]].value
              && (forall i :: 1 <= i < |s| ==> vs[i] == f(vs[i - 1], h[s[i]].value))
              && FinalizedHeap(h, pending, whitelist, f)[s[0]] == CellState(Some(p), vs[|s| - 1])
  {
    var s := SortedGroup(h, pending, whitelist, p);
    assert s[0] in s;
    var vs := MergedSteps(f, h, s);
    SurvivorIff(h, pending, whitelist, f, s[0], p);
    assert |vs| == |s| && vs[0] == h[s[0]].value;
  }

  // The group of a path: the pending cells with that path that the whitelist admits, each
  // once, SYSTEM first and the rest by transaction.
  lemma SortedGroupIs(h: Heap, pending: seq<StateCell>, whitelist: seq<nat>, p: string)
    requires WellIndexed(h, pending)
    ensures var s := SortedGroup(h, pending, whitelist, p);
            && Distinct(s) && Ordered(s)
            && forall c :: c in s <==>
                 && c in pending && h[c].path == Some(p)
                 && (whitelist == [] || c.skipConflictCheck || c.tx in whitelist)
  {
    GroupMembers(h, pending, whitelist, p);
    FilterDistinct(AdmittedOn(h, whitelist, p), pending);
    SortedDistinct(Group(h, pending, whitelist, p));
    SortedOrdered(Group(h, pending, whitelist, p));
  }

  // The reference round: the paths whose survivor outlives the block, each with the value
  // that applying the whole group leaves.
  lemma RoundMerges(h: Heap, pending: seq<StateCell>, whitelist: seq<nat>, f: Apply, p: string)
    requires WellIndexed(h, pending)
    ensures var s, r := SortedGroup(h, pending, whitelist, p), RoundOf(h, pending, whitelist, f);
            && (p in r <==> s != [] && !s[0].blockBound)
            && (p in r ==> exists vs: seq<Val> ::
                  && |vs| == |s| && vs[0] == h[s[0]].value
                  && (forall i :: 1 <= i < |s| ==> vs[i] == f(vs[i - 1], h[s[i]].value))
                  && r[p] == vs[|s| - 1])
  {
    var s := SortedGroup(h, pending, whitelist, p);
    if s != [] {
      NonemptyGroupPath(h, pending, whitelist, p);
      var vs := MergedSteps(f, h, s);
      assert |vs| == |s| && vs[0] == h[s[0]].value;
    }
  }

  // Nothing but the pending cells changes.
  lemma FinalizeFrame(h: Heap, pending: seq<StateCell>, whitelist: seq<nat>, f: Apply)
    requires WellIndexed(h, pending)
    ensures FinalizedHeap(h, pending, whitelist, f).Keys == h.Keys
    ensures forall c :: c in h && c !in pending ==> FinalizedHeap(h, pending, whitelist, f)[c] == h[c]
  {
  }

  // The entries a buffer would write: the flagged cells are skipped.
  function Unflagged(h: Heap): StateCell -> bool {
    (c: StateCell) => c in h && h[c].path.Some?
  }

  function EntriesOf(h: Heap, s: seq<StateCell>): seq<Entry<Value>>
  {
    if s == [] then []
    else (if Unflagged(h)(s[0]) then [Entry(h[s[0]].path.value, h[s[0]].value)] else []) + EntriesOf(h, s[1..])
  }

  function CellEntriesOf(h: Heap, s: seq<StateCell>): seq<Entry<StateCell>>
  {
    if s == [] then []
    else (if Unflagged(h)(s[0]) then [Entry(h[s[0]].path.value, Some(s[0]))] else []) + CellEntriesOf(h, s[1..])
  }

  function Persisted(): StateCell -> bool {
    (c: StateCell) => !c.blockBound
  }

  lemma {:induction false} EntriesConcat(h: Heap, a: seq<StateCell>, b: seq<StateCell>)
    ensures EntriesOf(h, a + b) == EntriesOf(h, a) + EntriesOf(h, b)
  {
    if a == [] {
      assert a + b == b;
    } else {
      var first := if Unflagged(h)(a[0]) then [Entry(h[a[0]].path.value, h[a[0]].value)] else [];
      EntriesConcat(h, a[1..], b);
      assert (a + b)[1..] == a[1..] + b;
      assert EntriesOf(h, a + b) == first + EntriesOf(h, a[1..] + b);
      assert EntriesOf(h, a) == first + EntriesOf(h, a[1..]);
    }
  }

  lemma {:induction false} CellEntriesConcat(h: Heap, a: seq<StateCell>, b: seq<StateCell>)
    ensures CellEntriesOf(h, a + b) == CellEntriesOf(h, a) + CellEntriesOf(h, b)
  {
    if a == [] {
      assert a + b == b;
    } else {
      var first := if Unflagged(h)(a[0]) then [Entry(h[a[0]].path.value, Some(a[0]))] else [];
      CellEntriesConcat(h, a[1..], b);
      assert (a + b)[1..] == a[1..] + b;
      assert CellEntriesOf(h, a + b) == first + CellEntriesOf(h, a[1..] + b);
      assert CellEntriesOf(h, a) == first + CellEntriesOf(h, a[1..]);
    }
  }

  // Entries depend only on the states of the cells listed.
  lemma {:induction false} EntriesAgree(h: Heap, h': Heap, s: seq<StateCell>)
    requires forall c :: c in s ==> c in h && c in h' && h[c] == h'[c]
    ensures EntriesOf(h, s) == EntriesOf(h', s) && CellEntriesOf(h, s) == CellEntriesOf(h', s)
  {
    if s != [] {
      EntriesAgree(h, h', s[1..]);
    }
  }

  // Dropping the flagged cells does not change the entries.
  lemma {:induction false} EntriesUnflagged(h: Heap, s: seq<StateCell>)
    ensures EntriesOf(h, Filter(Unflagged(h), s)) == EntriesOf(h, s)
    ensures CellEntriesOf(h, Filter(Unflagged(h), s)) == CellEntriesOf(h, s)
  {
    if s != [] {
      EntriesUnflagged(h, s[1..]);
      var t := Filter(Unflagged(h), s[1..]);
      if Unflagged(h)(s[0]) {
        assert ([s[0]] + t)[1..] == t;
      } else {
        assert [] + t == t;
      }
    }
  }

  // A buffer of finalized cells in which no cell has path `k` writes nothing to `k`;
  // one in which exactly one has it writes that cell's value once.
  lemma {:induction false} EntriesNone(h: Heap, s: seq<StateCell>, k: string)
    requires forall c :: c in s ==> !(c in h && h[c].path == Some(k))
    ensures KeyOps(EntriesOf(h, s), k) == [] && KeyOps(CellEntriesOf(h, s), k) == []
  {
    if s != [] {
      EntriesNone(h, s[1..], k);
      EntryStep(h, s, k);
    }
  }

  lemma EntryStep(h: Heap, s: seq<StateCell>, k: string)
    requires s != []
    ensures var hit := s[0] in h && h[s[0]].path == Some(k);
            && KeyOps(EntriesOf(h, s), k) == (if hit then [h[s[0]].value] else []) + KeyOps(EntriesOf(h, s[1..]), k)
            && KeyOps(CellEntriesOf(h, s), k)
               == (if hit then [Some(s[0])] else []) + KeyOps(CellEntriesOf(h, s[1..]), k)
  {
    if Unflagged(h)(s[0]) {
      assert EntriesOf(h, s)[1..] == EntriesOf(h, s[1..]);
      assert CellEntriesOf(h, s)[1..] == CellEntriesOf(h, s[1..]);
    } else {
      assert EntriesOf(h, s) == EntriesOf(h, s[1..]);
      assert CellEntriesOf(h, s) == CellEntriesOf(h, s[1..]);
    }
  }

  lemma {:induction false} EntriesOne(h: Heap, s: seq<StateCell>, k: string, x: StateCell)
    requires Distinct(s) && x in s && x in h && h[x].path == Some(k)
    requires forall c :: c in s && c in h && h[c].path == Some(k) ==> c == x
    ensures KeyOps(EntriesOf(h, s), k) == [h[x].value] && KeyOps(CellEntriesOf(h, s), k) == [Some(x)]
  {
    DistinctTail(s);
    EntryStep(h, s, k);
    if s[0] == x {
      EntriesNone(h, s[1..], k);
    } else {
      EntriesOne(h, s[1..], k, x);
    }
  }

  // The writers' part of the pending cells writes, key by key, exactly the round.
  lemma RoundWritten(h: Heap, pending: seq<StateCell>, whitelist: seq<nat>, f: Apply, k: string)
    requires WellIndexed(h, pending)
    ensures KeyOps(EntriesOf(FinalizedHeap(h, pending, whitelist, f), Filter(Persisted(), pending)), k)
         == RoundOp(RoundOf(h, pending, whitelist, f), k)
  {
    var h' := FinalizedHeap(h, pending, whitelist, f);
    var s := SortedGroup(h, pending, whitelist, k);
    var kept := Filter(Persisted(), pending);
    FilterMembers(Persisted(), pending);
    FilterDistinct(Persisted(), pending);
    forall c | c in kept ensures h'[c].path == Some(k) <==> s != [] && c == s[0] {
      SurvivorIff(h, pending, whitelist, f, c, k);
    }
    if s != [] && !s[0].blockBound {
      NonemptyGroupPath(h, pending, whitelist, k);
      assert s[0] in s;
      assert Persisted()(s[0]);
      SurvivorIff(h, pending, whitelist, f, s[0], k);
      EntriesOne(h', kept, k, s[0]);
    } else {
      EntriesNone(h', kept, k);
    }
  }

  lemma SurvivorsWritten(h: Heap, pending: seq<StateCell>, whitelist: seq<nat>, f: Apply, k: string)
    requires WellIndexed(h, pending)
    ensures KeyOps(CellEntriesOf(FinalizedHeap(h, pending, whitelist, f), pending), k)
         == RoundOp(SurvivorsOf(h, pending, whitelist), k)
  {
    var h' := FinalizedHeap(h, pending, whitelist, f);
    var s := SortedGroup(h, pending, whitelist, k);
    forall c | c in pending ensures h'[c].path == Some(k) <==> s != [] && c == s[0] {
      SurvivorIff(h, pending, whitelist, f, c, k);
    }
    if s != [] {
      NonemptyGroupPath(h, pending, whitelist, k);
      assert s[0] in s;
      SurvivorIff(h, pending, whitelist, f, s[0], k);
      EntriesOne(h', pending, k, s[0]);
    } else {
      EntriesNone(h', pending, k);
    }
  }

  // One survivor per path: the flagged cells dropped, a writer's buffer of the
  // generation holds for each path the survivor alone, when it passes the filter, and
  // no cell otherwise.
  lemma OneSurvivorPerPath(h: Heap, pending: seq<StateCell>, whitelist: seq<nat>, f: Apply, p: string)
    requires WellIndexed(h, pending)
    ensures var h' := FinalizedHeap(h, pending, whitelist, f);
            var s := SortedGroup(h, pending, whitelist, p);
            Filter(OnPath(h', p), Filter(Persisted(), pending))
            == if s != [] && !s[0].blockBound then [s[0]] else []
    ensures SortedGroup(h, pending, whitelist, p) != [] <==>
            exists c :: c in pending && h[c].path == Some(p) && Admitted(whitelist, c)
  {
    var h' := FinalizedHeap(h, pending, whitelist, f);
    var s := SortedGroup(h, pending, whitelist, p);
    var kept := Filter(Persisted(), pending);
    GroupMembers(h, pending, whitelist, p);
    FilterMembers(Persisted(), pending);
    FilterDistinct(Persisted(), pending);
    forall c | c in kept ensures OnPath(h', p)(c) <==> s != [] && c == s[0] {
      SurvivorIff(h, pending, whitelist, f, c, p);
    }
    if s != [] {
      assert s[0] in s;
    }
    if s != [] && !s[0].blockBound {
      assert Persisted()(s[0]);
      FilterSingleton(OnPath(h', p), kept, s[0]);
    } else {
      FilterNone(OnPath(h', p), kept);
    }
  }

  function OnPath(h: Heap, p: string): StateCell -> bool {
    (c: StateCell) => c in h && h[c].path == Some(p)
  }

  // The call depends on the pending cells' states only.
  lemma GroupAgree(h: Heap, h': Heap, pending: seq<StateCell>, whitelist: seq<nat>, f: Apply, p: string)
    requires forall c :: c in pending ==> c in h && c in h' && h[c] == h'[c]
    ensures SortedGroup(h, pending, whitelist, p) == SortedGroup(h', pending, whitelist, p)
    ensures SortedGroup(h, pending, whitelist, p) != [] ==>
              Merged(f, h, SortedGroup(h, pending, whitelist, p))
              == Merged(f, h', SortedGroup(h', pending, whitelist, p))
  {
    FilterAgree(AdmittedOn(h, whitelist, p), AdmittedOn(h', whitelist, p), pending);
    var s := SortedGroup(h, pending, whitelist, p);
    if s != [] {
      assert s[0] in s;
      assert Values(h, s[1..]) == Values(h', s[1..]);
    }
  }

  // What a round does to one path.
  lemma RoundAt(h: Heap, pending: seq<StateCell>, whitelist: seq<nat>, f: Apply, k: string)
    ensures var s := SortedGroup(h, pending, whitelist, k);
            && RoundOp(RoundOf(h, pending, whitelist, f), k)
               == (if s != [] && !s[0].blockBound then [Merged(f, h, s)] else [])
            && RoundOp(SurvivorsOf(h, pending, whitelist), k) == (if s != [] then [Some(s[0])] else [])
  {
    if SortedGroup(h, pending, whitelist, k) != [] {
      NonemptyGroupPath(h, pending, whitelist, k);
    }
  }

  lemma RoundAgree(h: Heap, h': Heap, pending: seq<StateCell>, whitelist: seq<nat>, f: Apply, k: string)
    requires forall c :: c in pending ==> c in h && c in h' && h[c] == h'[c]
    ensures RoundOp(RoundOf(h, pending, whitelist, f), k) == RoundOp(RoundOf(h', pending, whitelist, f), k)
    ensures RoundOp(SurvivorsOf(h, pending, whitelist), k) == RoundOp(SurvivorsOf(h', pending, whitelist), k)
  {
    GroupAgree(h, h', pending, whitelist, f, k);
    RoundAt(h, pending, whitelist, f, k);
    RoundAt(h', pending, whitelist, f, k);
  }

  // --------------------------------------------------- determinism

  // A path's group, seen per transaction, is cut out of that transaction's cells.
  lemma GroupOfTx(h: Heap, pending: seq<StateCell>, whitelist: seq<nat>, p: string, t: nat)
    ensures OfTx(Group(h, pending, whitelist, p), t) == Group(h, OfTx(pending, t), whitelist, p)
  {
    var both := (c: StateCell) => HasTx(t)(c) && AdmittedOn(h, whitelist, p)(c);
    FilterTwice(HasTx(t), AdmittedOn(h, whitelist, p), both, pending);
    FilterTwice(AdmittedOn(h, whitelist, p), HasTx(t), both, pending);
  }

  lemma SameGroups(h: Heap, a: seq<StateCell>, b: seq<StateCell>, whitelist: seq<nat>, p: string)
    requires SameInterleaving(a, b)
    ensures SortedGroup(h, a, whitelist, p) == SortedGroup(h, b, whitelist, p)
  {
    forall t: nat
      ensures OfTx(Group(h, a, whitelist, p), t) == OfTx(Group(h, b, whitelist, p), t)
    {
      assert OfTx(a, t) == OfTx(b, t);
      GroupOfTx(h, a, whitelist, p, t);
      GroupOfTx(h, b, whitelist, p, t);
    }
    SortDeterministic(Group(h, a, whitelist, p), Group(h, b, whitelist, p));
  }

  lemma StateDeterministic(h: Heap, a: seq<StateCell>, b: seq<StateCell>, whitelist: seq<nat>, f: Apply, c: StateCell)
    requires WellIndexed(h, a) && WellIndexed(h, b) && SameInterleaving(a, b) && c in h
    ensures FinalizedState(h, a, whitelist, f, c) == FinalizedState(h, b, whitelist, f, c)
  {
    SameMembers(a, b);
    if c in a {
      SameGroups(h, a, b, whitelist, h[c].path.value);
    }
  }

  lemma HeapDeterministic(h: Heap, a: seq<StateCell>, b: seq<StateCell>, whitelist: seq<nat>, f: Apply)
    requires WellIndexed(h, a) && WellIndexed(h, b) && SameInterleaving(a, b)
    ensures FinalizedHeap(h, a, whitelist, f) == FinalizedHeap(h, b, whitelist, f)
  {
    forall c | c in h ensures FinalizedState(h, a, whitelist, f, c) == FinalizedState(h, b, whitelist, f, c) {
      StateDeterministic(h, a, b, whitelist, f, c);
    }
  }

  lemma PathsDeterministic(h: Heap, a: seq<StateCell>, b: seq<StateCell>)
    requires SameInterleaving(a, b)
    ensures PathsOf(h, a) == PathsOf(h, b)
  {
    SameMembers(a, b);
  }

  lemma RoundDeterministic(h: Heap, a: seq<StateCell>, b: seq<StateCell>, whitelist: seq<nat>, f: Apply)
    requires SameInterleaving(a, b)
    ensures RoundOf(h, a, whitelist, f) == RoundOf(h, b, whitelist, f)
  {
    PathsDeterministic(h, a, b);
    forall p ensures SortedGroup(h, a, whitelist, p) == SortedGroup(h, b, whitelist, p) {
      SameGroups(h, a, b, whitelist, p);
    }
  }

  lemma SurvivorsDeterministic(h: Heap, a: seq<StateCell>, b: seq<StateCell>, whitelist: seq<nat>)
    requires SameInterleaving(a, b)
    ensures SurvivorsOf(h, a, whitelist) == SurvivorsOf(h, b, whitelist)
  {
    PathsDeterministic(h, a, b);
    forall p ensures SortedGroup(h, a, whitelist, p) == SortedGroup(h, b, whitelist, p) {
      SameGroups(h, a, b, whitelist, p);
    }
  }

  lemma ValuesDeterministic(h: Heap, a: seq<StateCell>, b: seq<StateCell>, whitelist: seq<nat>, f: Apply)
    requires SameInterleaving(a, b)
    ensures ValuesOf(h, a, whitelist, f) == ValuesOf(h, b, whitelist, f)
  {
    PathsDeterministic(h, a, b);
    forall p ensures SortedGroup(h, a, whitelist, p) == SortedGroup(h, b, whitelist, p) {
      SameGroups(h, a, b, whitelist, p);
    }
  }

  // Import interleavings that keep each transaction's own order lead to the same sorted
  // groups, hence to the same cells, the same survivors and the same round.
  lemma FinalizeDeterministic(h: Heap, a: seq<StateCell>, b: seq<StateCell>, whitelist: seq<nat>, f: Apply)
    requires WellIndexed(h, a) && WellIndexed(h, b) && SameInterleaving(a, b)
    ensures FinalizedHeap(h, a, whitelist, f) == FinalizedHeap(h, b, whitelist, f)
    ensures RoundOf(h, a, whitelist, f) == RoundOf(h, b, whitelist, f)
    ensures SurvivorsOf(h, a, whitelist) == SurvivorsOf(h, b, whitelist)
    ensures ValuesOf(h, a, whitelist, f) == ValuesOf(h, b, whitelist, f)
  {
    HeapDeterministic(h, a, b, whitelist, f);
    RoundDeterministic(h, a, b, whitelist, f);
    SurvivorsDeterministic(h, a, b, whitelist);
    ValuesDeterministic(h, a, b, whitelist, f);
  }

  lemma SameMembers(a: seq<StateCell>, b: seq<StateCell>)
    requires SameInterleaving(a, b)
    ensures forall c :: c in a <==> c in b
  {
    forall c | c in a || c in b ensures c in a && c in b {
      FilterMembers(HasTx(c.tx), a);
      FilterMembers(HasTx(c.tx), b);
      assert HasTx(c.tx)(c);
      assert OfTx(a, c.tx) == OfTx(b, c.tx);
    }
  }
}
