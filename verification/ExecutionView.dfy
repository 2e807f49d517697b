/**
 ExecutionStateStore: local cells over pending wildcard deletes over the committed
 store.  Cells are materialized when they are touched, and the view never notices.
 */
module ExecutionView {
  import opened Cells
  import opened Batches
  import opened Paths
  import opened EagerViews

  // A local cell's value; None is a deletion.
  type Locals = map<string, Option<Content>>

  // ------------------------------------------------------------ the layers

  // Some pending wildcard delete covers the path.
  predicate Wildcarded(wildcards: seq<string>, path: string) {
    exists i :: 0 <= i < |wildcards| && HasPrefix(path, wildcards[i])
  }

  // Local first, then pending deletes, then the committed store.
  function Resolve(local: Locals, wildcards: seq<string>, committed: View, path: string): Option<Content> {
    if path in local then local[path]
    else if Wildcarded(wildcards, path) then None
    else Lookup(committed, path)
  }

  // The whole view at once.
  function Eager(local: Locals, wildcards: seq<string>, committed: View): View {
    map p | p in local.Keys + committed.Keys && Resolve(local, wildcards, committed, p).Some?
          :: Resolve(local, wildcards, committed, p).value
  }

  lemma EagerAt(local: Locals, wildcards: seq<string>, committed: View, path: string)
    ensures Lookup(Eager(local, wildcards, committed), path) == Resolve(local, wildcards, committed, path)
  {
  }

  // A fresh store shows what is committed and under no pending delete.
  lemma FreshView(wildcards: seq<string>, committed: View, path: string)
    ensures Lookup(Eager(map[], wildcards, committed), path)
         == if exists i :: 0 <= i < |wildcards| && wildcards[i] <= path then None else Lookup(committed, path)
  {
    EagerAt(map[], wildcards, committed, path);
    forall i | 0 <= i < |wildcards| ensures HasPrefix(path, wildcards[i]) <==> wildcards[i] <= path {
    }
  }

  // What one resolution leaves behind: nothing new for a local path, a deleted cell for
  // a wildcarded one, and otherwise the committed value if the caller caches it.
  function Materialized(local: Locals, wildcards: seq<string>, committed: View, path: string, add: bool): Locals {
    if path in local then local
    else if Wildcarded(wildcards, path) then local[path := None]
    else if add then local[path := Lookup(committed, path)]
    else local
  }

  function RawHas(local: Locals, committed: View, path: string): bool {
    if ETH_ACCOUNT_PREFIX_LENGTH >= |path| then true
    else if path in local then local[path].Some?
    else path in committed
  }

  // No resolution changes what any path resolves to.
  lemma MaterializeKeepsView(local: Locals, wildcards: seq<string>, committed: View, path: string, add: bool)
    ensures Eager(Materialized(local, wildcards, committed, path, add), wildcards, committed)
         == Eager(local, wildcards, committed)
  {
    var local' := Materialized(local, wildcards, committed, path, add);
    forall p ensures Resolve(local', wildcards, committed, p) == Resolve(local, wildcards, committed, p) {
    }
    var a, b := Eager(local', wildcards, committed), Eager(local, wildcards, committed);
    forall p ensures Lookup(a, p) == Lookup(b, p) {
      EagerAt(local', wildcards, committed, p);
      EagerAt(local, wildcards, committed, p);
    }
    SameLookups(a, b);
  }

  lemma SameLookups(a: View, b: View)
    requires forall p :: Lookup(a, p) == Lookup(b, p)
    ensures a == b
  {
    forall p ensures p in a <==> p in b {
      assert Lookup(a, p) == Lookup(b, p);
    }
    forall p | p in a ensures a[p] == b[p] {
      assert Lookup(a, p) == Lookup(b, p);
    }
  }

  // Setting a local cell is setting the path in the view.
  lemma EagerPut(local: Locals, wildcards: seq<string>, committed: View, path: string, c: Option<Content>)
    ensures Eager(local[path := c], wildcards, committed) == Put(Eager(local, wildcards, committed), path, c)
  {
    var a, b := Eager(local[path := c], wildcards, committed), Put(Eager(local, wildcards, committed), path, c);
    forall p ensures Lookup(a, p) == Lookup(b, p) {
      EagerAt(local[path := c], wildcards, committed, p);
      EagerAt(local, wildcards, committed, p);
    }
    SameLookups(a, b);
  }

  // Has looks past the pending deletes: beyond the account prefix it agrees with the
  // view exactly unless the path is covered by one, committed, and not yet materialized.
  lemma HasAgreesIff(local: Locals, wildcards: seq<string>, committed: View, path: string)
    requires |path| > ETH_ACCOUNT_PREFIX_LENGTH
    ensures (RawHas(local, committed, path) <==> EagerViews.Has(Eager(local, wildcards, committed), path))
       <==> !(path !in local && Wildcarded(wildcards, path) && path in committed)
  {
    EagerAt(local, wildcards, committed, path);
  }

  // So a parent under a pending delete still counts as there for a write.
  lemma HasMissesPendingDelete(dir: string, c: Content)
    requires |dir| > ETH_ACCOUNT_PREFIX_LENGTH
    ensures RawHas(map[], map[dir := c], dir) && dir !in Eager(map[], [dir], map[dir := c])
  {
    assert HasPrefix(dir, [dir][0]);
    EagerAt(map[], [dir], map[dir := c], dir);
  }

  // ------------------------------------------------------------ sequences of reads

  datatype ReadOp = ReadOp(path: string, add: bool)

  function AfterReads(local: Locals, wildcards: seq<string>, committed: View, ops: seq<ReadOp>): Locals
    decreases |ops|
  {
    if ops == [] then local
    else AfterReads(Materialized(local, wildcards, committed, ops[0].path, ops[0].add), wildcards, committed, ops[1..])
  }

  // Lazy equals eager: after any reads the view is the same map, every later resolution
  // gives its value, and Has agrees with it on every path that was resolved.
  lemma {:induction false} LazyEqualsEager(local: Locals, wildcards: seq<string>, committed: View, ops: seq<ReadOp>)
    ensures var local' := AfterReads(local, wildcards, committed, ops);
            && Eager(local', wildcards, committed) == Eager(local, wildcards, committed)
            && (forall p :: p in local ==> p in local')
            && (forall i :: 0 <= i < |ops| ==> ops[i].path in local' || !Wildcarded(wildcards, ops[i].path))
    decreases |ops|
  {
    if ops != [] {
      var next := Materialized(local, wildcards, committed, ops[0].path, ops[0].add);
      MaterializeKeepsView(local, wildcards, committed, ops[0].path, ops[0].add);
      LazyEqualsEager(next, wildcards, committed, ops[1..]);
      var local' := AfterReads(local, wildcards, committed, ops);
      forall i | 0 <= i < |ops| ensures ops[i].path in local' || !Wildcarded(wildcards, ops[i].path) {
        if i > 0 {
          assert ops[1..][i - 1] == ops[i];
        }
      }
    }
  }

  lemma HasAfterReads(local: Locals, wildcards: seq<string>, committed: View, ops: seq<ReadOp>, i: nat)
    requires i < |ops| && |ops[i].path| > ETH_ACCOUNT_PREFIX_LENGTH
    ensures RawHas(AfterReads(local, wildcards, committed, ops), committed, ops[i].path)
       <==> ops[i].path in Eager(local, wildcards, committed)
  {
    LazyEqualsEager(local, wildcards, committed, ops);
    HasAgreesIff(AfterReads(local, wildcards, committed, ops), wildcards, committed, ops[i].path);
  }

  // ------------------------------------------------------------ which paths are resolved

  // The paths with a local cell after one resolution, and after each kind of call.
  function Resolved(keys: set<string>, wildcards: seq<string>, path: string, add: bool): set<string> {
    if add || Wildcarded(wildcards, path) then keys + {path} else keys
  }

  function AfterExists(keys: set<string>, wildcards: seq<string>, path: string, add: bool): set<string> {
    if IsImmediateChildOfSysPath(path) then keys else Resolved(keys, wildcards, Parent(path), add)
  }

  function AfterRead(keys: set<string>, wildcards: seq<string>, v: View, path: string, add: bool): set<string> {
    var k := AfterExists(keys, wildcards, path, add);
    if Visible(v, path) then Resolved(k, wildcards, path, add) else k
  }

  function AfterSet(keys: set<string>, tx: nat, path: string): set<string> {
    keys + {path} + (if Tracks(Parent(path), tx) then {Parent(path)} else {})
  }

  function AfterWrite(keys: set<string>, wildcards: seq<string>, setter: Setter, v: View,
                      tx: nat, path: string, c: Option<Content>): set<string>
  {
    var k := AfterSet(keys, tx, path);
    if IsContainerPath(Parent(path))
    then AfterRead(k, wildcards, SetRecorded(setter, v, tx, path, c).view, Parent(path), false)
    else k
  }

  function AfterLast(keys: set<string>, wildcards: seq<string>, v: View, dir: string): set<string> {
    var k, last := AfterRead(keys, wildcards, v, dir, true), LastKey(Read(v, dir));
    if last.Some? then AfterRead(k, wildcards, v, dir + last.value, true) else k
  }

  function AfterPop(keys: set<string>, wildcards: seq<string>, setter: Setter, v: View,
                    tx: nat, dir: string): set<string>
  {
    if !HasSuffix(dir, "/") then keys
    else
      var k, last := AfterLast(keys, wildcards, v, dir), LastKey(Read(v, dir));
      if last.None? || Read(v, dir + last.value).None? then k
      else AfterWrite(k, wildcards, setter, v, tx, dir + last.value, None)
  }

  // A read resolves the parent it asks, and the path if it is there; each only if it is
  // cached or covered by a pending delete.
  lemma ReadResolves(keys: set<string>, wildcards: seq<string>, v: View, path: string, add: bool, q: string)
    ensures q in AfterRead(keys, wildcards, v, path, add)
       <==> || q in keys
            || (q == Parent(path) && !IsImmediateChildOfSysPath(path) && (add || Wildcarded(wildcards, q)))
            || (q == path && Visible(v, path) && (add || Wildcarded(wildcards, q)))
  {
  }

  // A write resolves its path, and the parent whose record it updates.
  lemma WriteResolves(keys: set<string>, wildcards: seq<string>, setter: Setter, v: View,
                      tx: nat, path: string, c: Option<Content>)
    ensures var k := AfterWrite(keys, wildcards, setter, v, tx, path, c);
            keys <= k && path in k && (Tracks(Parent(path), tx) ==> Parent(path) in k)
  {
  }

  // What Has answers: what the view has, and what a pending delete covers but no call has
  // resolved yet.
  predicate Answer(keys: set<string>, wildcards: seq<string>, committed: View, v: View, path: string) {
    EagerViews.Has(v, path) || (path !in keys && Wildcarded(wildcards, path) && path in committed)
  }

  lemma HasExact(local: Locals, wildcards: seq<string>, committed: View, path: string)
    ensures RawHas(local, committed, path)
       <==> Answer(local.Keys, wildcards, committed, Eager(local, wildcards, committed), path)
  {
    EagerAt(local, wildcards, committed, path);
  }

  // A pop that finds a value is a delete of that child.
  lemma PopDeletes(setter: Setter, v: View, tx: nat, dir: string, key: string)
    requires Consistent(v) && HasSuffix(dir, "/")
    requires LastKey(Read(v, dir)) == Some(key) && Read(v, dir + key).Some?
    ensures Parent(dir + key) == dir && dir in v && v[dir].Container? && key in v[dir].children
    ensures var w := EagerViews.Write(setter, v, tx, dir + key, None, true);
            EagerViews.PopBack(setter, v, tx, dir)
            == PopResult(w.view, Read(v, dir + key), if w.ok then Done else Refused)
  {
    ParentOfChild(dir, key);
  }

  // ------------------------------------------------------------ the store

  class ViewCell {
    var value: Option<Content>

    constructor (value: Option<Content>)
      ensures this.value == value
    {
      this.value := value;
    }
  }

  class ExecutionStateStore {
    var localCells: map<string, ViewCell>
    const committed: View
    const wildcards: seq<string>
    const setter: Setter

    // Each path has a cell of its own.
    ghost predicate Valid()
      reads this
    {
      forall p, q :: p in localCells && q in localCells && p != q ==> localCells[p] != localCells[q]
    }

    ghost function Local(): Locals
      reads this, localCells.Values
    {
      map p | p in localCells :: localCells[p].value
    }

    ghost function View(): View
      reads this, localCells.Values
    {
      Eager(Local(), wildcards, committed)
    }

    constructor (committed: View, wildcards: seq<string>, setter: Setter)
      ensures Valid() && Local() == map[] && this.committed == committed && this.wildcards == wildcards
      ensures this.setter == setter
    {
      this.localCells, this.committed, this.wildcards, this.setter := map[], committed, wildcards, setter;
    }

    // A path under a pending delete gets a fresh, deleted cell.
    method ResolveWildcardDeletion(path: string) returns (ok: bool, cell: ViewCell?)
      ensures ok <==> Wildcarded(wildcards, path)
      ensures ok <==> cell != null
      ensures ok ==> fresh(cell) && cell.value == None
    {
      var i := 0;
      while i < |wildcards|
        invariant 0 <= i <= |wildcards|
        invariant forall j :: 0 <= j < i ==> !HasPrefix(path, wildcards[j])
      {
        if |path| >= |wildcards[i]| && path[..|wildcards[i]|] == wildcards[i] {
          cell := new ViewCell(Lookup(committed, path));
          cell.value := None;
          assert HasPrefix(path, wildcards[i]);
          return true, cell;
        }
        i := i + 1;
      }
      return false, null;
    }

    // Add a new cell to the local cells.
    method Keep(path: string, cell: ViewCell)
      requires Valid() && path !in localCells && cell !in localCells.Values
      modifies this`localCells
      ensures Valid() && localCells == old(localCells)[path := cell]
      ensures Local() == old(Local())[path := cell.value]
    {
      localCells := localCells[path := cell];
    }

    method ResolveCellForRead(path: string, add: bool) returns (cell: ViewCell)
      requires Valid()
      modifies this
      ensures Valid() && cell.value == Resolve(old(Local()), wildcards, committed, path)
      ensures Local() == Materialized(old(Local()), wildcards, committed, path, add)
      ensures add ==> path in localCells && localCells[path] == cell
      ensures fresh(localCells.Values - old(localCells.Values)) && old(localCells.Keys) <= localCells.Keys
      ensures View() == old(View()) && localCells.Keys == Resolved(old(localCells.Keys), wildcards, path, add)
    {
      MaterializeKeepsView(Local(), wildcards, committed, path, add);
      if path in localCells {
        return localCells[path];
      }
      var ok, deleted := ResolveWildcardDeletion(path);
      if ok {
        cell := deleted;
        Keep(path, cell);
        return;
      }
      cell := new ViewCell(Lookup(committed, path));
      if add {
        Keep(path, cell);
      }
    }

    method ExistsInParent(path: string, add: bool) returns (b: bool)
      requires Valid() && WellTyped(View())
      modifies this
      ensures Valid() && View() == old(View()) && b == Visible(old(View()), path)
      ensures fresh(localCells.Values - old(localCells.Values))
      ensures localCells.Keys == AfterExists(old(localCells.Keys), wildcards, path, add)
    {
      if IsImmediateChildOfSysPath(path) {
        return true;
      }
      var (parent, key) := GetParentPath(path);
      EagerAt(Local(), wildcards, committed, parent);
      var meta := ResolveCellForRead(parent, add);
      CheckedIsTracked(path, 0);
      return meta.value.Some? && key in meta.value.value.children;
    }

    method ReadCell(path: string, add: bool) returns (value: Option<Content>, ok: bool)
      requires Valid() && WellTyped(View())
      modifies this
      ensures Valid() && View() == old(View())
      ensures value == Read(old(View()), path) && ok == Visible(old(View()), path)
      ensures fresh(localCells.Values - old(localCells.Values))
      ensures localCells.Keys == AfterRead(old(localCells.Keys), wildcards, old(View()), path, add)
    {
      ok := ExistsInParent(path, add);
      if !ok {
        return None, false;
      }
      EagerAt(Local(), wildcards, committed, path);
      var cell := ResolveCellForRead(path, add);
      value := cell.value;
    }

    method Has(path: string) returns (b: bool)
      ensures b == Answer(localCells.Keys, wildcards, committed, View(), path)
    {
      HasExact(Local(), wildcards, committed, path);
      if ETH_ACCOUNT_PREFIX_LENGTH >= |path| {
        return true;
      }
      if path in localCells {
        return localCells[path].value.Some?;
      }
      return path in committed;
    }

    // cell.Set on the path's own cell.
    method SetLocal(path: string, c: Option<Content>)
      requires Valid() && path in localCells
      modifies localCells[path]
      ensures Valid() && Local() == old(Local())[path := c] && localCells == old(localCells)
      ensures View() == Put(old(View()), path, c)
    {
      EagerPut(Local(), wildcards, committed, path, c);
      localCells[path].value := c;
    }

    // Resolve the path's cell and set it.
    method SetCell(path: string, c: Option<Content>)
      requires Valid()
      modifies this, localCells.Values
      ensures Valid() && View() == Put(old(View()), path, Stored(setter, Lookup(old(View()), path), c))
      ensures fresh(localCells.Values - old(localCells.Values)) && localCells.Keys == old(localCells.Keys) + {path}
    {
      EagerAt(Local(), wildcards, committed, path);
      var cell := ResolveCellForRead(path, true);
      SetLocal(path, Stored(setter, cell.value, c));
    }

    // Set on the parent's cell: add or remove the child's key.
    method RecordChild(parent: string, key: string, present: bool) returns (ok: bool)
      requires Valid()
      modifies this, localCells.Values
      ensures Valid() && WriteResult(View(), ok) == Record(old(View()), parent, key, present)
      ensures fresh(localCells.Values - old(localCells.Values)) && localCells.Keys == old(localCells.Keys) + {parent}
    {
      EagerAt(Local(), wildcards, committed, parent);
      var meta := ResolveCellForRead(parent, true);
      if meta.value.Some? && meta.value.value.Container? {
        var children := UpdateChildren(meta.value.value.children, key, present);
        SetLocal(parent, Some(Container(children)));
        return true;
      }
      return false;
    }

    // The write of a plain path whose parent is there, or by SYSTEM.
    method ApplyWrite(tx: nat, path: string, c: Option<Content>) returns (ok: bool)
      requires Valid() && Consistent(View()) && Writable(path, c)
      modifies this, localCells.Values
      ensures Valid() && fresh(localCells.Values - old(localCells.Values))
      ensures WriteResult(View(), ok) == EagerViews.Write(setter, old(View()), tx, path, c, true)
      ensures localCells.Keys == AfterWrite(old(localCells.Keys), wildcards, setter, old(View()), tx, path, c)
    {
      WriteTyped(setter, View(), tx, path, c, true);
      ok := SetAndRecord(tx, path, c);
      if IsContainerPath(Parent(path)) {
        var _, visible := ReadCell(Parent(path), false);
        ok := visible;
      }
    }

    // Set the path's cell, then the parent's record.
    method SetAndRecord(tx: nat, path: string, c: Option<Content>) returns (ok: bool)
      requires Valid()
      modifies this, localCells.Values
      ensures Valid() && fresh(localCells.Values - old(localCells.Values))
      ensures WriteResult(View(), ok) == SetRecorded(setter, old(View()), tx, path, c)
      ensures localCells.Keys == AfterSet(old(localCells.Keys), tx, path)
    {
      var (parent, key) := GetParentPath(path);
      SetCell(path, c);
      ok := true;
      if Tracks(parent, tx) {
        ok := RecordChild(parent, key, c.Some?);
      }
    }

    method Write(tx: nat, path: string, c: Option<Content>) returns (ok: bool)
      requires Valid() && Consistent(View()) && Writable(path, c)
      modifies this, localCells.Values
      ensures Valid() && fresh(localCells.Values - old(localCells.Values))
      ensures var there := Answer(old(localCells.Keys), wildcards, committed, old(View()), Parent(path));
              && WriteResult(View(), ok) == EagerViews.Write(setter, old(View()), tx, path, c, there)
              && localCells.Keys == if there || tx == SYSTEM
                                    then AfterWrite(old(localCells.Keys), wildcards, setter, old(View()), tx, path, c)
                                    else old(localCells.Keys)
    {
      var parentExists := Has(Parent(path));
      if parentExists || tx == SYSTEM {
        ok := ApplyWrite(tx, path, c);
      } else {
        ok := false;
      }
    }

    // Delete a child of a directory that is there.
    method DeleteChild(tx: nat, dir: string, key: string) returns (ok: bool)
      requires Valid() && Consistent(View()) && dir in View() && IsPlain(dir + key)
      requires Parent(dir + key) == dir
      modifies this, localCells.Values
      ensures Valid() && fresh(localCells.Values - old(localCells.Values))
      ensures WriteResult(View(), ok)
           == EagerViews.Write(setter, old(View()), tx, dir + key, None, EagerViews.Has(old(View()), dir))
      ensures localCells.Keys
           == AfterWrite(old(localCells.Keys), wildcards, setter, old(View()), tx, dir + key, None)
    {
      ok := Write(tx, dir + key, None);
    }

    // Read the record into the local cells; take its last key and that child's value.
    method ReadLast(dir: string) returns (meta: Option<Content>, key: Option<string>, value: Option<Content>)
      requires Valid() && WellTyped(View())
      modifies this
      ensures Valid() && View() == old(View()) && fresh(localCells.Values - old(localCells.Values))
      ensures meta == Read(old(View()), dir) && key == LastKey(meta)
      ensures value == if key.None? then None else Read(old(View()), dir + key.value)
      ensures key.Some? ==> dir in View() && View()[dir].Container? && key.value in View()[dir].children
      ensures localCells.Keys == AfterLast(old(localCells.Keys), wildcards, old(View()), dir)
    {
      var found, _ := ReadCell(dir, true);
      meta, key, value := found, None, None;
      if meta.Some? && meta.value.Container? && |meta.value.children| > 0 {
        key := Some(meta.value.children[|meta.value.children| - 1]);
        var child, _ := ReadCell(dir + key.value, true);
        value := child;
      }
    }

    // Delete the last child, whose value was found.
    method DeleteLast(tx: nat, dir: string, key: string) returns (outcome: Outcome)
      requires Valid() && Consistent(View()) && HasSuffix(dir, "/") && IsPlain(dir + key)
      requires LastKey(Read(View(), dir)) == Some(key) && Read(View(), dir + key).Some?
      modifies this, localCells.Values
      ensures Valid() && fresh(localCells.Values - old(localCells.Values))
      ensures PopResult(View(), Read(old(View()), dir + key), outcome)
           == EagerViews.PopBack(setter, old(View()), tx, dir)
      ensures localCells.Keys
           == AfterWrite(old(localCells.Keys), wildcards, setter, old(View()), tx, dir + key, None)
    {
      PopDeletes(setter, View(), tx, dir, key);
      var ok := DeleteChild(tx, dir, key);
      outcome := if ok then Done else Refused;
    }

    method PopBack(tx: nat, dir: string) returns (value: Option<Content>, outcome: Outcome)
      requires Valid() && Consistent(View())
      requires dir in View() && View()[dir].Container? ==> forall k :: k in View()[dir].children ==> IsPlain(dir + k)
      modifies this, localCells.Values
      ensures Valid() && fresh(localCells.Values - old(localCells.Values))
      ensures PopResult(View(), value, outcome) == EagerViews.PopBack(setter, old(View()), tx, dir)
      ensures localCells.Keys == AfterPop(old(localCells.Keys), wildcards, setter, old(View()), tx, dir)
    {
      if !HasSuffix(dir, "/") {
        return None, Refused;
      }
      var meta, last;
      meta, last, value := ReadLast(dir);
      if meta.None? || !meta.value.Container? {
        return None, Panicked;
      }
      if value.None? {
        return None, Refused;
      }
      outcome := DeleteLast(tx, dir, last.value);
    }
  }
}
