/**
 DeltaSequence: the transitions of one path, sorted (SYSTEM first, then by
 transaction) and merged into the first one.
 */
module DeltaSequences {
  import opened Cells
  import opened Seqs

  // The comparator handed to sort.SliceStable.
  predicate Less(a: StateCell, b: StateCell) {
    if a.tx == SYSTEM then true
    else if b.tx == SYSTEM then false
    else a.tx < b.tx
  }

  // Move `c`, standing behind `s`, leftwards while it compares below its left neighbour.
  function Insert(s: seq<StateCell>, c: StateCell): (r: seq<StateCell>)
    ensures |r| == |s| + 1
  {
    if s == [] || !Less(c, s[|s| - 1]) then s + [c]
    else Insert(s[..|s| - 1], c) + [s[|s| - 1]]
  }

  function Sorted(s: seq<StateCell>): (r: seq<StateCell>)
    ensures |r| == |s|
  {
    if s == [] then []
    else Insert(Sorted(s[..|s| - 1]), s[|s| - 1])
  }

  lemma {:induction false} InsertPermutes(s: seq<StateCell>, c: StateCell)
    ensures multiset(Insert(s, c)) == multiset(s) + multiset{c}
  {
    if s == [] || !Less(c, s[|s| - 1]) {
    } else {
      InsertPermutes(s[..|s| - 1], c);
      assert s == s[..|s| - 1] + [s[|s| - 1]];
    }
  }

  lemma {:induction false} SortedPermutes(s: seq<StateCell>)
    ensures multiset(Sorted(s)) == multiset(s)
  {
    if s != [] {
      SortedPermutes(s[..|s| - 1]);
      InsertPermutes(Sorted(s[..|s| - 1]), s[|s| - 1]);
      assert s == s[..|s| - 1] + [s[|s| - 1]];
    }
  }

  lemma SortedMembers(s: seq<StateCell>)
    ensures forall c :: c in Sorted(s) <==> c in s
  {
    SortedPermutes(s);
    forall c | c in Sorted(s) || c in s ensures c in Sorted(s) && c in s {
      assert c in multiset(Sorted(s)) && c in multiset(s);
    }
  }

  lemma SortedElements(s: seq<StateCell>)
    ensures forall i :: 0 <= i < |Sorted(s)| ==> Sorted(s)[i] in s
  {
    SortedPermutes(s);
    forall i | 0 <= i < |Sorted(s)| ensures Sorted(s)[i] in s {
      assert Sorted(s)[i] in multiset(Sorted(s));
    }
  }

  // The position class of a transaction: SYSTEM before everything, then ascending.
  function Rank(c: StateCell): int {
    if c.tx == SYSTEM then -1 else c.tx
  }

  ghost predicate Ordered(s: seq<StateCell>) {
    forall i, j :: 0 <= i < j < |s| ==> Rank(s[i]) <= Rank(s[j])
  }

  function HasTx(t: nat): StateCell -> bool {
    (c: StateCell) => c.tx == t
  }

  // A transaction's own cells, in order.
  function OfTx(s: seq<StateCell>, t: nat): seq<StateCell> {
    Filter(HasTx(t), s)
  }

  // Two import orders that keep every transaction's own order.
  ghost predicate SameInterleaving(a: seq<StateCell>, b: seq<StateCell>) {
    forall t: nat :: OfTx(a, t) == OfTx(b, t)
  }

  lemma {:induction false} InsertSystem(s: seq<StateCell>, c: StateCell)
    requires c.tx == SYSTEM
    ensures Insert(s, c) == [c] + s
  {
    if s != [] {
      InsertSystem(s[..|s| - 1], c);
    }
  }

  lemma {:induction false} InsertOfTx(s: seq<StateCell>, c: StateCell, t: nat)
    requires c.tx != SYSTEM
    ensures OfTx(Insert(s, c), t) == OfTx(s, t) + (if c.tx == t then [c] else [])
  {
    if s == [] || !Less(c, s[|s| - 1]) {
      FilterSnoc(HasTx(t), s, c);
    } else {
      var init, last := s[..|s| - 1], s[|s| - 1];
      InsertOfTx(init, c, t);
      FilterSnoc(HasTx(t), Insert(init, c), last);
      FilterSnoc(HasTx(t), init, last);
      assert s == init + [last];
    }
  }

  lemma {:induction false} InsertOrdered(s: seq<StateCell>, c: StateCell)
    requires Ordered(s)
    ensures Ordered(Insert(s, c))
  {
    if s == [] || !Less(c, s[|s| - 1]) {
    } else {
      var init, last := s[..|s| - 1], s[|s| - 1];
      InsertOrdered(init, c);
      var r := Insert(init, c);
      InsertPermutes(init, c);
      forall i | 0 <= i < |r| ensures Rank(r[i]) <= Rank(last) {
        assert r[i] in multiset(r);
        assert r[i] == c || r[i] in multiset(init);
        if r[i] != c {
          assert r[i] in init;
        }
      }
    }
  }

  // The sort puts SYSTEM first and the rest by ascending transaction.
  lemma {:induction false} SortedOrdered(s: seq<StateCell>)
    ensures Ordered(Sorted(s))
  {
    if s != [] {
      SortedOrdered(s[..|s| - 1]);
      InsertOrdered(Sorted(s[..|s| - 1]), s[|s| - 1]);
    }
  }

  lemma InsertSystemOfTx(s: seq<StateCell>, c: StateCell, t: nat)
    requires c.tx == SYSTEM
    ensures OfTx(Insert(s, c), t) == (if t == SYSTEM then [c] else []) + OfTx(s, t)
  {
    InsertSystem(s, c);
    assert ([c] + s)[1..] == s;
  }

  // The sort is stable for every transaction but SYSTEM; SYSTEM cells come out in
  // reverse, because the comparator holds between any two of them.
  lemma {:induction false} SortedOfTx(s: seq<StateCell>, t: nat)
    ensures OfTx(Sorted(s), t) == if t == SYSTEM then Reverse(OfTx(s, t)) else OfTx(s, t)
  {
    if s != [] {
      var init, last := s[..|s| - 1], s[|s| - 1];
      var before := OfTx(init, t);
      SortedOfTx(init, t);
      assert OfTx(s, t) == before + (if last.tx == t then [last] else []) by {
        FilterSnoc(HasTx(t), init, last);
        assert s == init + [last];
      }
      if last.tx == SYSTEM {
        InsertSystemOfTx(Sorted(init), last, t);
        ReverseSnoc(before, last);
      } else {
        InsertOfTx(Sorted(init), last, t);
        assert before + [] == before;
      }
    }
  }

  lemma OfTxTail(s: seq<StateCell>, t: nat)
    requires s != []
    ensures OfTx(s[1..], t) == if s[0].tx == t then OfTx(s, t)[1..] else OfTx(s, t)
  {
  }

  lemma HeadOfTx(s: seq<StateCell>)
    ensures s != [] ==> OfTx(s, s[0].tx) != []
    ensures s == [] ==> forall t: nat :: OfTx(s, t) == []
  {
  }

  // An ordered sequence is determined by its per-transaction subsequences.
  lemma {:induction false} OrderedUnique(a: seq<StateCell>, b: seq<StateCell>)
    requires Ordered(a) && Ordered(b) && SameInterleaving(a, b)
    ensures a == b
  {
    HeadOfTx(a);
    HeadOfTx(b);
    if a != [] && b != [] {
      var t := a[0].tx;
      assert OfTx(a, t)[0] == a[0] && OfTx(a, t) == OfTx(b, t);
      FilterMembers(HasTx(t), b);
      assert a[0] in b;
      var i :| 0 <= i < |b| && b[i] == a[0];
      var u := b[0].tx;
      assert OfTx(b, u)[0] == b[0] && OfTx(a, u) == OfTx(b, u);
      FilterMembers(HasTx(u), a);
      assert b[0] in a;
      var j :| 0 <= j < |a| && a[j] == b[0];
      assert Rank(b[0]) <= Rank(b[i]) && Rank(a[0]) <= Rank(a[j]);
      assert t == u;
      assert OfTx(a, t)[0] == a[0] && OfTx(b, t)[0] == b[0];
      forall t': nat ensures OfTx(a[1..], t') == OfTx(b[1..], t') {
        assert OfTx(a, t') == OfTx(b, t');
        OfTxTail(a, t');
        OfTxTail(b, t');
      }
      OrderedUnique(a[1..], b[1..]);
    }
  }

  // Determinism: import orders that differ only between transactions sort alike.
  lemma SortDeterministic(a: seq<StateCell>, b: seq<StateCell>)
    requires SameInterleaving(a, b)
    ensures Sorted(a) == Sorted(b)
  {
    SortedOrdered(a);
    SortedOrdered(b);
    forall t: nat ensures OfTx(Sorted(a), t) == OfTx(Sorted(b), t) {
      SortedOfTx(a, t);
      SortedOfTx(b, t);
    }
    OrderedUnique(Sorted(a), Sorted(b));
  }

  // With at most one SYSTEM cell every stable sort by this order gives this result,
  // so the claim does not hang on how the library sorts.
  lemma StableSortUnique(s: seq<StateCell>, r: seq<StateCell>)
    requires |OfTx(s, SYSTEM)| <= 1
    requires Ordered(r) && SameInterleaving(r, s)
    ensures r == Sorted(s)
  {
    SortedOrdered(s);
    forall t: nat ensures OfTx(r, t) == OfTx(Sorted(s), t) {
      SortedOfTx(s, t);
      assert OfTx(r, t) == OfTx(s, t);
      if t == SYSTEM && OfTx(s, t) != [] {
        var c := OfTx(s, t)[0];
        assert OfTx(s, t) == [] + [c];
        ReverseSnoc([], c);
      }
    }
    OrderedUnique(r, Sorted(s));
  }

  // ---------------------------------------------------------------- merging

  function Fold(f: Apply, base: Val, deltas: seq<Val>): Val
    decreases |deltas|
  {
    if deltas == [] then base else Fold(f, f(base, deltas[0]), deltas[1..])
  }

  function Values(h: Heap, s: seq<StateCell>): (r: seq<Val>)
    requires forall c :: c in s ==> c in h
    ensures |r| == |s|
    ensures forall i :: 0 <= i < |s| ==> r[i] == h[s[i]].value
  {
    seq(|s|, i requires 0 <= i < |s| => h[s[i]].value)
  }

  // The value the survivor of a sorted sequence is left with.
  function Merged(f: Apply, h: Heap, s: seq<StateCell>): Val
    requires s != []
    requires forall c :: c in s ==> c in h
  {
    Fold(f, h[s[0]].value, Values(h, s[1..]))
  }

  // The values the survivor goes through: its own, then one more transition applied at
  // each step, until none is left.
  ghost predicate AppliesAll(f: Apply, h: Heap, s: seq<StateCell>, vs: seq<Val>)
    requires forall c :: c in s ==> c in h
  {
    && |vs| == |s|
    && (s != [] ==> vs[0] == h[s[0]].value)
    && forall i :: 1 <= i < |s| ==> vs[i] == f(vs[i - 1], h[s[i]].value)
  }

  lemma {:induction false} MergedSteps(f: Apply, h: Heap, s: seq<StateCell>) returns (vs: seq<Val>)
    requires s != [] && forall c :: c in s ==> c in h
    ensures AppliesAll(f, h, s, vs) && vs[|s| - 1] == Merged(f, h, s)
    decreases |s|
  {
    vs := [h[s[0]].value];
    if |s| > 1 {
      var n := |s| - 1;
      var before := MergedSteps(f, h, s[..n]);
      vs := before + [f(before[n - 1], h[s[n]].value)];
      assert Values(h, s[1..]) == Values(h, s[..n][1..]) + [h[s[n]].value];
      FoldConcat(f, h[s[0]].value, Values(h, s[..n][1..]), [h[s[n]].value]);
    }
  }

  ghost predicate Commutes(f: Apply) {
    forall x, a, b :: f(f(x, a), b) == f(f(x, b), a)
  }

  lemma {:induction false} FoldConcat(f: Apply, base: Val, a: seq<Val>, b: seq<Val>)
    ensures Fold(f, base, a + b) == Fold(f, Fold(f, base, a), b)
    decreases |a|
  {
    if a == [] {
      assert a + b == b;
    } else {
      assert (a + b)[0] == a[0] && (a + b)[1..] == a[1..] + b;
      FoldConcat(f, f(base, a[0]), a[1..], b);
    }
  }

  // One more delta at the end is one more at the front.
  lemma {:induction false} FoldThrough(f: Apply, base: Val, a: seq<Val>, x: Val)
    requires Commutes(f)
    ensures f(Fold(f, base, a), x) == Fold(f, f(base, x), a)
    decreases |a|
  {
    if a != [] {
      FoldThrough(f, f(base, a[0]), a[1..], x);
      assert f(f(base, a[0]), x) == f(f(base, x), a[0]);
    }
  }

  lemma FoldPullFront(f: Apply, base: Val, a: seq<Val>, x: Val, b: seq<Val>)
    requires Commutes(f)
    ensures Fold(f, base, a + ([x] + b)) == Fold(f, f(base, x), a + b)
  {
    FoldConcat(f, base, a, [x] + b);
    FoldConcat(f, f(base, x), a, b);
    FoldThrough(f, base, a, x);
    assert ([x] + b)[1..] == b;
  }

  // If Apply commutes, the merged value depends on the base and on which deltas
  // there are, not on their order.
  lemma {:induction false} MergeOrderIndependent(f: Apply, base: Val, a: seq<Val>, b: seq<Val>)
    requires Commutes(f) && multiset(a) == multiset(b)
    ensures Fold(f, base, a) == Fold(f, base, b)
    decreases |a|
  {
    if a == [] {
      assert |multiset(a)| == 0 && |multiset(b)| == |b|;
    } else {
      var x := a[0];
      assert x in multiset(b);
      var i :| 0 <= i < |b| && b[i] == x;
      assert a == [x] + a[1..];
      assert b == b[..i] + ([x] + b[i + 1..]);
      assert multiset(a[1..]) == multiset(a) - multiset{x};
      assert multiset(b[..i] + b[i + 1..]) == multiset(b) - multiset{x};
      FoldPullFront(f, base, b[..i], x, b[i + 1..]);
      MergeOrderIndependent(f, f(base, x), a[1..], b[..i] + b[i + 1..]);
    }
  }

  // ---------------------------------------------------------------- in place

  // The library's stable sort on a short slice: insertion from the right.
  method SortInPlace(a: array<StateCell>)
    modifies a
    ensures a[..] == Sorted(old(a[..]))
  {
    ghost var was := a[..];
    var i := 0;
    while i < a.Length
      invariant 0 <= i <= a.Length
      invariant a[..i] == Sorted(was[..i])
      invariant a[i..] == was[i..]
    {
      assert was[..i + 1][..i] == was[..i] && was[..i + 1][i] == was[i];
      assert a[i] == a[i..][0] == was[i];
      assert a[i + 1..] == was[i + 1..];
      SiftLeft(a, i);
      i := i + 1;
    }
    assert was[..i] == was && a[..i] == a[..];
  }

  method SortSequence(v: seq<StateCell>) returns (s: seq<StateCell>)
    ensures s == Sorted(v)
  {
    var a := new StateCell[|v|](i requires 0 <= i < |v| => v[i]);
    assert a[..] == v;
    SortInPlace(a);
    s := a[..];
  }

  method SiftLeft(a: array<StateCell>, i: nat)
    requires i < a.Length
    modifies a
    ensures a[..i + 1] == Insert(old(a[..i]), old(a[i]))
    ensures a[i + 1..] == old(a[i + 1..])
  {
    ghost var done := a[..i];
    ghost var c := a[i];
    var j := i;
    assert done[..i] == done && Insert(done, c) == Insert(done[..i], c) + done[i..];
    while j > 0 && Less(a[j], a[j - 1])
      invariant 0 <= j <= i
      invariant a[j] == c
      invariant forall k :: 0 <= k < j ==> a[k] == done[k]
      invariant forall k :: j < k <= i ==> a[k] == done[k - 1]
      invariant a[i + 1..] == old(a[i + 1..])
      invariant Insert(done, c) == Insert(done[..j], c) + done[j..]
    {
      InsertStep(done, c, j);
      a[j], a[j - 1] := a[j - 1], a[j];
      j := j - 1;
    }
    InsertHere(done, c, j);
    Shifted(a[..i + 1], done, c, j);
  }

  lemma Shifted(r: seq<StateCell>, s: seq<StateCell>, c: StateCell, j: nat)
    requires j <= |s| && |r| == |s| + 1 && r[j] == c
    requires forall k :: 0 <= k < j ==> r[k] == s[k]
    requires forall k :: j < k < |r| ==> r[k] == s[k - 1]
    ensures r == s[..j] + [c] + s[j..]
  {
  }

  lemma InsertHere(s: seq<StateCell>, c: StateCell, j: nat)
    requires j <= |s| && (j > 0 ==> !Less(c, s[j - 1]))
    requires Insert(s, c) == Insert(s[..j], c) + s[j..]
    ensures Insert(s, c) == s[..j] + [c] + s[j..]
  {
    assert j > 0 ==> s[..j][j - 1] == s[j - 1];
    assert Insert(s[..j], c) == s[..j] + [c];
  }

  lemma InsertStep(s: seq<StateCell>, c: StateCell, j: nat)
    requires 0 < j <= |s| && Less(c, s[j - 1])
    ensures Insert(s[..j], c) + s[j..] == Insert(s[..j - 1], c) + s[j - 1..]
  {
    assert s[..j][..j - 1] == s[..j - 1];
    assert s[j - 1..] == [s[j - 1]] + s[j..];
  }

  // Apply every later transition, in order, to the first.
  method ApplyDelta(s: seq<StateCell>, f: Apply, ghost h: Heap)
    requires s != [] && Distinct(s)
    requires forall c :: c in s ==> c in h && c.State() == h[c]
    modifies {s[0]}`value
    ensures s[0].value == Merged(f, h, s)
  {
    var base := s[0];
    var i := 1;
    while i < |s|
      invariant 1 <= i <= |s|
      invariant forall k :: 1 <= k < |s| ==> s[k].value == h[s[k]].value
      invariant Fold(f, base.value, Values(h, s[i..])) == Merged(f, h, s)
    {
      assert s[i] in s;
      assert Values(h, s[i..])[1..] == Values(h, s[i + 1..]);
      base.value := f(base.value, s[i].value);
      i := i + 1;
    }
  }

  // Flag every transition but the first as merged.
  method FlagMerged(s: seq<StateCell>)
    requires Distinct(s)
    modifies (set c | c in s)`path
    ensures forall i :: 1 <= i < |s| ==> s[i].path == None
    ensures s != [] ==> s[0].path == old(s[0].path)
  {
    var i := 1;
    while i < |s|
      invariant 1 <= i
      invariant forall k :: 1 <= k < i && k < |s| ==> s[k].path == None
      invariant s != [] ==> s[0].path == old(s[0].path)
    {
      s[i].path := None;
      i := i + 1;
    }
  }

  // Sort, merge into the first transition, flag the rest.
  method FinalizeSequence(v: seq<StateCell>, f: Apply, ghost h: Heap) returns (s: seq<StateCell>)
    requires v != [] && Distinct(v)
    requires forall c :: c in v ==> c in h && c.State() == h[c]
    modifies set c | c in v
    ensures s == Sorted(v)
    ensures forall c :: c in s ==> c in h
    ensures s[0].State() == h[s[0]].(value := Merged(f, h, s))
    ensures forall i :: 1 <= i < |s| ==> s[i].State() == h[s[i]].(path := None)
  {
    s := SortSequence(v);
    SortedDistinct(v);
    assert forall c :: c in s ==> c in v by {
      SortedPermutes(v);
      forall k | 0 <= k < |s| ensures s[k] in v {
        assert s[k] in multiset(s);
      }
    }
    ApplyDelta(s, f, h);
    FlagMerged(s);
  }

  lemma TwiceCount(r: seq<StateCell>, i: nat, j: nat)
    requires i < j < |r| && r[i] == r[j]
    ensures multiset(r)[r[i]] >= 2
  {
    assert r == r[..j] + r[j..];
    assert r[..j][i] in multiset(r[..j]) && r[j..][0] in multiset(r[j..]);
  }

  lemma SortedDistinct(s: seq<StateCell>)
    requires Distinct(s)
    ensures Distinct(Sorted(s))
  {
    SortedPermutes(s);
    var r := Sorted(s);
    forall i, j | 0 <= i < j < |r| ensures r[i] != r[j] {
      if r[i] == r[j] {
        TwiceCount(r, i, j);
        DistinctCount(s, r[i]);
      }
    }
  }

  lemma {:induction false} DistinctCount<T>(s: seq<T>, x: T)
    requires Distinct(s)
    ensures multiset(s)[x] <= 1
  {
    if s != [] {
      DistinctTail(s);
      DistinctCount(s[1..], x);
      assert s == [s[0]] + s[1..];
    }
  }
}
