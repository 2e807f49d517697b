/**
 Order-preserving filters and other sequence facts that the buffers, the
 indexers and the delta sequences share.  `Filter` stands for the slice helpers
 RemoveIf, MoveIf and CopyIf of the common library.
 */
module Seqs {

  ghost predicate Distinct<T>(s: seq<T>) {
    forall i, j :: 0 <= i < j < |s| ==> s[i] != s[j]
  }

  function Filter<T>(keep: T -> bool, s: seq<T>): seq<T> {
    if s == [] then []
    else (if keep(s[0]) then [s[0]] else []) + Filter(keep, s[1..])
  }

  lemma {:induction false} FilterMembers<T>(keep: T -> bool, s: seq<T>)
    ensures forall x :: x in Filter(keep, s) ==> x in s && keep(x)
    ensures forall x :: x in s && keep(x) ==> x in Filter(keep, s)
  {
    if s != [] {
      FilterMembers(keep, s[1..]);
    }
  }

  function Flatten<T>(ss: seq<seq<T>>): (r: seq<T>)
  {
    if ss == [] then [] else ss[0] + Flatten(ss[1..])
  }

  function Reverse<T>(s: seq<T>): (r: seq<T>)
    ensures |r| == |s|
  {
    if s == [] then [] else Reverse(s[1..]) + [s[0]]
  }

  lemma ConcatAssoc<T>(x: seq<T>, y: seq<T>, z: seq<T>)
    ensures x + (y + z) == x + y + z
  {
  }

  lemma {:induction false} FilterConcat<T>(keep: T -> bool, a: seq<T>, b: seq<T>)
    ensures Filter(keep, a + b) == Filter(keep, a) + Filter(keep, b)
  {
    if a == [] {
      assert a + b == b;
    } else {
      var first := if keep(a[0]) then [a[0]] else [];
      FilterConcat(keep, a[1..], b);
      assert (a + b)[1..] == a[1..] + b;
      assert Filter(keep, a + b) == first + Filter(keep, a[1..] + b);
      assert Filter(keep, a) == first + Filter(keep, a[1..]);
    }
  }

  lemma FilterSnoc<T>(keep: T -> bool, s: seq<T>, x: T)
    ensures Filter(keep, s + [x]) == Filter(keep, s) + (if keep(x) then [x] else [])
  {
    FilterConcat(keep, s, [x]);
    assert [x][1..] == [];
    assert Filter(keep, [x]) == (if keep(x) then [x] else []);
  }

  // Two filters that agree on the members of a sequence select the same cells.
  lemma {:induction false} FilterAgree<T>(f: T -> bool, g: T -> bool, s: seq<T>)
    requires forall x :: x in s ==> f(x) == g(x)
    ensures Filter(f, s) == Filter(g, s)
  {
    if s != [] {
      FilterAgree(f, g, s[1..]);
    }
  }

  // Filtering twice is filtering once by the conjunction.
  lemma {:induction false} FilterTwice<T>(f: T -> bool, g: T -> bool, both: T -> bool, s: seq<T>)
    requires forall x :: x in s ==> both(x) == (f(x) && g(x))
    ensures Filter(f, Filter(g, s)) == Filter(both, s)
  {
    if s != [] {
      FilterTwice(f, g, both, s[1..]);
      FilterConcat(f, if g(s[0]) then [s[0]] else [], Filter(g, s[1..]));
      assert g(s[0]) ==> [s[0]][1..] == [];
    }
  }

  lemma {:induction false} FilterAll<T>(keep: T -> bool, s: seq<T>)
    requires forall x :: x in s ==> keep(x)
    ensures Filter(keep, s) == s
  {
    if s != [] {
      FilterAll(keep, s[1..]);
    }
  }

  lemma {:induction false} FilterNone<T>(keep: T -> bool, s: seq<T>)
    requires forall x :: x in s ==> !keep(x)
    ensures Filter(keep, s) == []
  {
    if s != [] {
      FilterNone(keep, s[1..]);
    }
  }

  lemma {:induction false} FilterElements<T>(keep: T -> bool, s: seq<T>)
    ensures forall i :: 0 <= i < |Filter(keep, s)| ==> Filter(keep, s)[i] in s && keep(Filter(keep, s)[i])
  {
    if s != [] {
      FilterElements(keep, s[1..]);
    }
  }

  lemma DistinctTail<T>(s: seq<T>)
    requires Distinct(s) && s != []
    ensures Distinct(s[1..]) && s[0] !in s[1..]
  {
    forall i | 0 <= i < |s[1..]| ensures s[1..][i] != s[0] {
      assert s[1..][i] == s[i + 1];
    }
  }

  lemma DistinctConcat<T>(a: seq<T>, b: seq<T>)
    requires Distinct(a) && Distinct(b)
    requires forall x :: x in a ==> x !in b
    ensures Distinct(a + b)
  {
    forall i, j | 0 <= i < j < |a + b| ensures (a + b)[i] != (a + b)[j] {
      if i < |a| <= j {
        assert a[i] in a && b[j - |a|] in b;
      }
    }
  }

  lemma {:induction false} FilterDistinct<T>(keep: T -> bool, s: seq<T>)
    requires Distinct(s)
    ensures Distinct(Filter(keep, s))
  {
    if s != [] {
      DistinctTail(s);
      FilterDistinct(keep, s[1..]);
      FilterMembers(keep, s[1..]);
    }
  }

  lemma {:induction false} FilterSingleton<T>(keep: T -> bool, s: seq<T>, x: T)
    requires Distinct(s) && x in s && keep(x)
    requires forall y :: y in s && keep(y) ==> y == x
    ensures Filter(keep, s) == [x]
  {
    DistinctTail(s);
    if s[0] == x {
      FilterNone(keep, s[1..]);
    } else {
      FilterSingleton(keep, s[1..], x);
    }
  }

  lemma {:induction false} FlattenConcat<T>(a: seq<seq<T>>, b: seq<seq<T>>)
    ensures Flatten(a + b) == Flatten(a) + Flatten(b)
  {
    if a == [] {
      assert a + b == b;
    } else {
      FlattenConcat(a[1..], b);
      assert (a + b)[1..] == a[1..] + b;
      assert Flatten(a + b) == a[0] + Flatten(a[1..] + b);
    }
  }

  lemma FlattenSnoc<T>(ss: seq<seq<T>>, s: seq<T>)
    ensures Flatten(ss + [s]) == Flatten(ss) + s
  {
    FlattenConcat(ss, [s]);
    assert [s][1..] == [];
    assert Flatten([s]) == s + [];
  }

  lemma {:induction false} ReverseSnoc<T>(s: seq<T>, x: T)
    ensures Reverse(s + [x]) == [x] + Reverse(s)
  {
    if s == [] {
      assert [x][1..] == [];
      assert s + [x] == [x];
    } else {
      assert (s + [x])[1..] == s[1..] + [x];
      ReverseSnoc(s[1..], x);
    }
  }
}
