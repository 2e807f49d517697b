/**
 The execution view as a simple eager map: what the layered, lazily materialized
 store of ExecutionView.dfy is proved to present.  A directory holds the ordered set
 of its children's keys; reads are gated on membership in the parent.
 */
module EagerViews {
  import opened Cells
  import opened Seqs
  import opened Batches
  import opened Paths

  datatype Content = Container(children: seq<string>) | Datum(value: Value)

  type View = map<string, Content>

  // ------------------------------------------------------------ reading

  // The parent's record names the path.
  predicate Listed(v: View, path: string) {
    Parent(path) in v && v[Parent(path)].Container? && ChildKey(path) in v[Parent(path)].children
  }

  // ExistsInParent: immediate children of system paths keep no record.
  predicate Visible(v: View, path: string) {
    IsImmediateChildOfSysPath(path) || Listed(v, path)
  }

  function Read(v: View, path: string): Option<Content> {
    if Visible(v, path) then Lookup(v, path) else None
  }

  // Paths no longer than the account prefix are always there.
  predicate Has(v: View, path: string) {
    ETH_ACCOUNT_PREFIX_LENGTH >= |path| || path in v
  }

  // ------------------------------------------------------------ writing

  function Put(v: View, path: string, c: Option<Content>): View {
    if c.Some? then v[path := c.value] else v - {path}
  }

  // A datum's own Set: what it makes of the value before and the value written.
  type Setter = (Val, Value) -> Value

  // What setting the cell at a path leaves there.
  function Stored(setter: Setter, was: Option<Content>, c: Option<Content>): Option<Content> {
    if c.Some? && c.value.Datum? then
      var before := if was.Some? && was.value.Datum? then Some(was.value.value) else None;
      Some(Datum(setter(before, c.value.value)))
    else c
  }

  function Without(key: string): string -> bool {
    (k: string) => k != key
  }

  function UpdateChildren(children: seq<string>, key: string, present: bool): seq<string> {
    if present then (if key in children then children else children + [key])
    else Filter(Without(key), children)
  }

  datatype WriteResult = WriteResult(view: View, ok: bool)

  // Set on the parent's cell; it fails if the parent has no record.
  function Record(v: View, parent: string, key: string, present: bool): WriteResult {
    if parent in v && v[parent].Container?
    then WriteResult(v[parent := Container(UpdateChildren(v[parent].children, key, present))], true)
    else WriteResult(v, false)
  }

  // The value is set, then the parent's record.
  function SetRecorded(setter: Setter, v: View, tx: nat, path: string, c: Option<Content>): WriteResult {
    var w := Put(v, path, Stored(setter, Lookup(v, path), c));
    if Tracks(Parent(path), tx) then Record(w, Parent(path), ChildKey(path), c.Some?) else WriteResult(w, true)
  }

  // Under a container path the outcome is that of a final look at the parent.
  function Write(setter: Setter, v: View, tx: nat, path: string, c: Option<Content>, parentExists: bool): WriteResult {
    if !parentExists && tx != SYSTEM then WriteResult(v, false)
    else
      var r := SetRecorded(setter, v, tx, path, c);
      WriteResult(r.view, if IsContainerPath(Parent(path)) then Visible(r.view, Parent(path)) else r.ok)
  }

  // Plain paths only.  Directories hold records, everything else data; a directory is
  // written empty.
  ghost predicate Writable(path: string, c: Option<Content>) {
    && IsPlain(path)
    && (c.Some? ==> (c.value.Container? <==> IsDirectory(path)) && (c.value.Container? ==> c.value.children == []))
  }

  // ------------------------------------------------------------ the membership invariant

  ghost predicate WellTyped(v: View) {
    forall p :: p in v ==> (v[p].Container? <==> IsDirectory(p))
  }

  ghost predicate ProperRecord(children: seq<string>) {
    Distinct(children) && forall k :: k in children ==> IsChildKey(k)
  }

  // Every child named in a tracked directory has a value.
  ghost predicate Consistent(v: View) {
    && WellTyped(v)
    && (forall p :: p in v && v[p].Container? ==> ProperRecord(v[p].children))
    && (forall p, k :: p in v && v[p].Container? && k in v[p].children && Tracks(p, 0) ==> p + k in v)
  }

  lemma UpdatedRecord(children: seq<string>, key: string, present: bool)
    requires ProperRecord(children) && (present ==> IsChildKey(key))
    ensures ProperRecord(UpdateChildren(children, key, present))
    ensures forall k ::
              k in UpdateChildren(children, key, present) <==> (k in children && k != key) || (present && k == key)
  {
    FilterMembers(Without(key), children);
    FilterDistinct(Without(key), children);
    if present && key !in children {
      DistinctConcat(children, [key]);
    }
  }

  lemma TrackedNotRoot(p: string, tx: nat)
    requires Tracks(p, tx)
    ensures p != "" && p != "/"
  {
  }

  // A child named in a tracked directory is found under that directory alone.
  lemma NamedBy(p: string, k: string, path: string)
    requires IsDirectory(p) && IsChildKey(k) && Tracks(p, 0) && p + k == path
    ensures Parent(path) == p && ChildKey(path) == k
  {
    TrackedNotRoot(p, 0);
    ParentOfChild(p, k);
  }

  // The one write that leaves a named child without a value.
  ghost predicate Orphans(v: View, tx: nat, path: string, c: Option<Content>) {
    c.None? && Listed(v, path) && Tracks(Parent(path), 0) && !Tracks(Parent(path), tx)
  }

  lemma WriteTyped(setter: Setter, v: View, tx: nat, path: string, c: Option<Content>, parentExists: bool)
    requires Consistent(v) && Writable(path, c)
    ensures WellTyped(Write(setter, v, tx, path, c, parentExists).view)
    ensures var v' := Write(setter, v, tx, path, c, parentExists).view;
            forall p :: p in v' && v'[p].Container? ==> ProperRecord(v'[p].children)
  {
    var v' := Write(setter, v, tx, path, c, parentExists).view;
    var parent := Parent(path);
    if Tracks(parent, tx) {
      TrackedNotRoot(parent, tx);
      ParentSplits(path);
    }
    forall p | p in v'
      ensures v'[p].Container? <==> IsDirectory(p)
      ensures v'[p].Container? ==> ProperRecord(v'[p].children)
    {
      if p == parent && Tracks(parent, tx) {
        if parent in v && v[parent].Container? {
          UpdatedRecord(v[parent].children, ChildKey(path), c.Some?);
        }
      } else if p != path {
        assert p in v && v'[p] == v[p];
      }
    }
  }

  // Every write keeps the invariant, except exactly the SYSTEM delete of a child named
  // in a tracked directory that is not a container path.
  lemma WriteKeepsMembership(setter: Setter, v: View, tx: nat, path: string, c: Option<Content>, parentExists: bool)
    requires Consistent(v) && Writable(path, c) && (parentExists || tx == SYSTEM)
    ensures Consistent(Write(setter, v, tx, path, c, parentExists).view) <==> !Orphans(v, tx, path, c)
  {
    var v' := Write(setter, v, tx, path, c, parentExists).view;
    var parent, key := Parent(path), ChildKey(path);
    WriteTyped(setter, v, tx, path, c, parentExists);
    if Orphans(v, tx, path, c) {
      TrackedNotRoot(parent, 0);
      ParentSplits(path);
      assert parent in v' && key in v'[parent].children && parent + key !in v';
    } else {
      forall p, k | p in v' && v'[p].Container? && k in v'[p].children && Tracks(p, 0) ensures p + k in v' {
        NamedStays(setter, v, tx, path, c, p, k);
      }
    }
  }

  // A directory of an account that is neither the platform's own nor a container path.
  lemma PlainDirectory(addr: string)
    requires IsAddress(addr)
    ensures var dir := AccountPath(addr, "x/");
            && !IsContainerPath(dir) && !IsSysPath(dir) && IsDirectory(dir)
            && Parent(dir + "k") == dir && ChildKey(dir + "k") == "k" && IsPlain(dir + "k")
            && !IsDirectory(dir + "k") && !IsImmediateChildOfSysPath(dir + "k")
  {
    var dir := AccountPath(addr, "x/");
    assert dir[ETH_ACCOUNT_FULL_LENGTH..] == "/x/";
    assert |dir| == 67 && dir[66] == '/' && dir[65] == 'x';
    assert dir[|dir| - 11..][9] == 'x' && "/container/"[9] == 'r';
    assert "/x/"[1] == 'x';
    ParentOfChild(dir, "k");
    assert (dir + "k")[67] == 'k' && (dir + "k")[ETH_ACCOUNT_FULL_LENGTH..] == "/x/k";
    assert (dir + "k")[67..][0] == 'k' && (dir + "k")[65..][2] == 'k' && "*"[0] == '*' && "[:]"[2] == ']';
    assert "/x/k"[1] == 'x';
  }

  // Such a delete exists, under every account.
  lemma SystemDeleteOrphans(setter: Setter, addr: string, x: Value)
    requires IsAddress(addr)
    ensures var dir := AccountPath(addr, "x/");
            var v: View := map[dir := Container(["k"]), dir + "k" := Datum(x)];
            Consistent(v) && !Consistent(Write(setter, v, SYSTEM, dir + "k", None, true).view)
  {
    var dir := AccountPath(addr, "x/");
    var v: View := map[dir := Container(["k"]), dir + "k" := Datum(x)];
    PlainDirectory(addr);
    assert Consistent(v);
    WriteKeepsMembership(setter, v, SYSTEM, dir + "k", None, true);
  }

  lemma NamedStays(setter: Setter, v: View, tx: nat, path: string, c: Option<Content>, p: string, k: string)
    requires Consistent(v) && Writable(path, c) && !Orphans(v, tx, path, c)
    requires var v' := Write(setter, v, tx, path, c, true).view;
             p in v' && v'[p].Container? && k in v'[p].children && Tracks(p, 0)
    ensures p + k in Write(setter, v, tx, path, c, true).view
  {
    var v' := Write(setter, v, tx, path, c, true).view;
    var parent, key := Parent(path), ChildKey(path);
    TrackedNotRoot(p, 0);
    WriteTyped(setter, v, tx, path, c, true);
    if Tracks(parent, tx) {
      TrackedNotRoot(parent, tx);
      ParentSplits(path);
      if p == parent {
        UpdatedRecord(v[parent].children, key, c.Some?);
      }
    }
    if p + k == path {
      NamedBy(p, k, path);
    }
  }

  // ------------------------------------------------------------ reading back

  // A read after a write gives what the cell's own Set made of the value before and the
  // value written, or nothing for a delete, exactly when the write deletes, or no record is
  // asked for, or one already names the path, or the write records it in a parent that is
  // there.
  lemma ReadBack(setter: Setter, v: View, tx: nat, path: string, c: Option<Content>, parentExists: bool)
    requires Consistent(v) && Writable(path, c) && (parentExists || tx == SYSTEM)
    ensures Read(Write(setter, v, tx, path, c, parentExists).view, path) == Stored(setter, Lookup(v, path), c)
       <==> || c.None? || IsImmediateChildOfSysPath(path) || Listed(v, path)
            || (Tracks(Parent(path), tx) && Parent(path) in v)
  {
    var parent, key := Parent(path), ChildKey(path);
    if !IsImmediateChildOfSysPath(path) {
      CheckedIsTracked(path, tx);
      ParentSplits(path);
      assert parent in v ==> v[parent].Container?;
      if parent in v {
        UpdatedRecord(v[parent].children, key, c.Some?);
      }
    } else if Tracks(parent, tx) {
      TrackedNotRoot(parent, tx);
      ParentSplits(path);
    }
  }

  // A SYSTEM write under every account that stores a value no read finds.
  lemma SystemWriteUnreadable(setter: Setter, addr: string, x: Value)
    requires IsAddress(addr)
    ensures var dir := AccountPath(addr, "x/");
            var v: View := map[dir := Container([])];
            var w := Write(setter, v, SYSTEM, dir + "k", Some(Datum(x)), true);
            Consistent(v) && w.ok && dir + "k" in w.view && Read(w.view, dir + "k") == None
  {
    var dir := AccountPath(addr, "x/");
    var v: View := map[dir := Container([])];
    PlainDirectory(addr);
    assert Consistent(v);
    ReadBack(setter, v, SYSTEM, dir + "k", Some(Datum(x)), true);
  }

  // Nothing else is read differently but the parent's record and what was under the path.
  lemma WriteFrame(setter: Setter, v: View, tx: nat, path: string, c: Option<Content>, parentExists: bool, q: string)
    requires Consistent(v) && Writable(path, c)
    requires q != path && q != Parent(path) && Parent(q) != path
    ensures Read(Write(setter, v, tx, path, c, parentExists).view, q) == Read(v, q)
  {
    var v' := Write(setter, v, tx, path, c, parentExists).view;
    if Tracks(Parent(path), tx) {
      TrackedNotRoot(Parent(path), tx);
      ParentSplits(path);
    }
    assert (q in v') == (q in v) && (q in v ==> v'[q] == v[q]);
    if !IsImmediateChildOfSysPath(q) {
      WriteFrameListed(setter, v, tx, path, c, parentExists, q);
    }
  }

  lemma WriteFrameListed(setter: Setter, v: View, tx: nat, path: string, c: Option<Content>, parentExists: bool,
                         q: string)
    requires Consistent(v) && Writable(path, c) && !IsImmediateChildOfSysPath(q)
    requires q != path && Parent(q) != path
    ensures Listed(Write(setter, v, tx, path, c, parentExists).view, q) == Listed(v, q)
  {
    var parent, key := Parent(path), ChildKey(path);
    if Tracks(parent, tx) && Parent(q) == parent {
      TrackedNotRoot(parent, tx);
      ParentSplits(path);
      CheckedIsTracked(q, 0);
      ParentSplits(q);
      if parent in v && v[parent].Container? {
        UpdatedRecord(v[parent].children, key, c.Some?);
      }
    }
  }

  // In a consistent view a path whose record is checked has a value exactly if it is named.
  lemma NamedIffReadable(v: View, path: string)
    requires Consistent(v) && !IsImmediateChildOfSysPath(path)
    ensures Read(v, path).Some? <==> Listed(v, path)
  {
    CheckedIsTracked(path, 0);
    ParentSplits(path);
  }

  // ------------------------------------------------------------ outcomes

  // Paths of up to 22 characters, the account prefix, are always there; others if the view
  // has them.
  lemma HasIff(v: View, path: string)
    ensures Has(v, path) <==> |path| <= 22 || path in v
    ensures |ETH_ACCOUNT_PREFIX| == 22
  {
  }

  // An ordinary write under a parent that is not there is refused and changes nothing.
  lemma OrphanRefused(setter: Setter, v: View, tx: nat, path: string, c: Option<Content>)
    requires tx != SYSTEM && |Parent(path)| > 22 && Parent(path) !in v
    ensures Write(setter, v, tx, path, c, Has(v, Parent(path))) == WriteResult(v, false)
  {
  }

  lemma SetRecordedOk(setter: Setter, v: View, tx: nat, path: string, c: Option<Content>)
    requires Consistent(v) && Writable(path, c)
    ensures SetRecorded(setter, v, tx, path, c).ok <==> !Tracks(Parent(path), tx) || Parent(path) in v
  {
    var parent := Parent(path);
    if Tracks(parent, tx) {
      TrackedNotRoot(parent, tx);
      ParentSplits(path);
      assert parent in v <==> parent in Put(v, path, Stored(setter, Lookup(v, path), c));
    }
  }

  // The write does not change whether a read finds the container it writes under.
  lemma FinalLook(setter: Setter, v: View, tx: nat, path: string, c: Option<Content>)
    requires Consistent(v) && Writable(path, c) && IsContainerPath(Parent(path))
    ensures Visible(SetRecorded(setter, v, tx, path, c).view, Parent(path)) <==> Visible(v, Parent(path))
  {
    var parent := Parent(path);
    var w := SetRecorded(setter, v, tx, path, c).view;
    var up := Parent(parent);
    TrackedNotRoot(parent, tx);
    ParentSplits(path);
    ParentSplits(parent);
    assert |up| < |parent| < |path|;
    assert (up in w <==> up in v) && (up in v ==> w[up] == v[up]);
  }

  // A write succeeds exactly if its parent is there or the writer is SYSTEM and, in a
  // container path, a read finds the parent or, elsewhere, the record the writer has to
  // update exists.
  lemma WriteOkIff(setter: Setter, v: View, tx: nat, path: string, c: Option<Content>)
    requires Consistent(v) && Writable(path, c)
    ensures Write(setter, v, tx, path, c, Has(v, Parent(path))).ok
       <==> && (tx == SYSTEM || |Parent(path)| <= 22 || Parent(path) in v)
            && (if HasSuffix(Parent(path), "/container/")
                then IsImmediateChildOfSysPath(Parent(path)) || Listed(v, Parent(path))
                else IsSysPath(Parent(path)) || tx == SYSTEM || Parent(path) in v)
  {
    SetRecordedOk(setter, v, tx, path, c);
    if IsContainerPath(Parent(path)) {
      FinalLook(setter, v, tx, path, c);
    }
  }

  // A datum is set on the value before it; a delete leaves nothing.
  lemma WriteSets(setter: Setter, v: View, tx: nat, path: string, c: Option<Content>)
    requires Consistent(v) && Writable(path, c) && (tx == SYSTEM || Has(v, Parent(path)))
    ensures var w := Write(setter, v, tx, path, c, Has(v, Parent(path))).view;
            && (c.None? ==> path !in w)
            && (c.Some? && c.value.Container? ==> Lookup(w, path) == c)
            && (c.Some? && c.value.Datum? && path !in v ==>
                  Lookup(w, path) == Some(Datum(setter(None, c.value.value))))
            && (c.Some? && c.value.Datum? && path in v ==>
                  v[path].Datum? && Lookup(w, path) == Some(Datum(setter(Some(v[path].value), c.value.value))))
  {
    if Tracks(Parent(path), tx) {
      TrackedNotRoot(Parent(path), tx);
      ParentSplits(path);
    }
  }

  // ------------------------------------------------------------ an account's container

  // Whoever writes under an account's container directory, the child is put in its record.
  lemma ContainerRecords(setter: Setter, v: View, tx: nat, addr: string, key: string, x: Value)
    requires IsAddress(addr) && IsChildKey(key)
    requires var dir := AccountPath(addr, "storage/container/"); dir in v && v[dir].Container?
    ensures var dir := AccountPath(addr, "storage/container/");
            var w := Write(setter, v, tx, dir + key, Some(Datum(x)), Has(v, dir)).view;
            dir in w && w[dir].Container? && key in w[dir].children
  {
    var dir := AccountPath(addr, "storage/container/");
    ContainerOfAccount(addr, key, tx);
    TrackedNotRoot(dir, tx);
    ParentSplits(dir + key);
    var children := v[dir].children;
    assert key in (if key in children then children else children + [key]);
  }

  // A child the record does not name reads as nothing, whatever the view holds for it.
  lemma ContainerUnlisted(v: View, addr: string, key: string)
    requires IsAddress(addr) && IsChildKey(key)
    requires var dir := AccountPath(addr, "storage/container/");
             dir in v && v[dir].Container? ==> key !in v[dir].children
    ensures Read(v, AccountPath(addr, "storage/container/") + key) == None
  {
    ContainerOfAccount(addr, key, 0);
  }

  // ------------------------------------------------------------ runs of writes

  datatype WriteOp = WriteOp(tx: nat, path: string, content: Option<Content>)

  function WriteAll(setter: Setter, v: View, ops: seq<WriteOp>): View
    decreases |ops|
  {
    if ops == [] then v
    else
      var there := Has(v, Parent(ops[0].path));
      WriteAll(setter, Write(setter, v, ops[0].tx, ops[0].path, ops[0].content, there).view, ops[1..])
  }

  // Over every run of writes by ordinary transactions, successful or not.
  lemma {:induction false} MembershipInvariant(setter: Setter, v: View, ops: seq<WriteOp>)
    requires Consistent(v)
    requires forall i :: 0 <= i < |ops| ==> ops[i].tx != SYSTEM && Writable(ops[i].path, ops[i].content)
    ensures Consistent(WriteAll(setter, v, ops))
    decreases |ops|
  {
    if ops != [] {
      var op := ops[0];
      if Has(v, Parent(op.path)) {
        WriteKeepsMembership(setter, v, op.tx, op.path, op.content, true);
      }
      MembershipInvariant(setter, Write(setter, v, op.tx, op.path, op.content, Has(v, Parent(op.path))).view, ops[1..]);
    }
  }

  // Records written through plain paths name plain paths only.
  ghost predicate PlainRecords(v: View) {
    forall p, k :: p in v && v[p].Container? && k in v[p].children ==> IsPlain(p + k)
  }

  lemma WriteKeepsPlain(setter: Setter, v: View, tx: nat, path: string, c: Option<Content>, parentExists: bool)
    requires Consistent(v) && PlainRecords(v) && Writable(path, c)
    ensures PlainRecords(Write(setter, v, tx, path, c, parentExists).view)
  {
    var v' := Write(setter, v, tx, path, c, parentExists).view;
    var parent := Parent(path);
    if Tracks(parent, tx) {
      TrackedNotRoot(parent, tx);
      ParentSplits(path);
    }
    forall p, k | p in v' && v'[p].Container? && k in v'[p].children ensures IsPlain(p + k) {
      if p != parent || !Tracks(parent, tx) {
        assert p in v && v[p].Container? && k in v[p].children;
      } else if parent in v && v[parent].Container? {
        UpdatedRecord(v[parent].children, ChildKey(path), c.Some?);
        assert k in v[parent].children || k == ChildKey(path);
      }
    }
  }

  // ------------------------------------------------------------ the container as a stack

  // A missing record is not an error but a failed type assertion.
  datatype Outcome = Done | Refused | Panicked

  datatype PopResult = PopResult(view: View, value: Option<Content>, outcome: Outcome)

  function LastKey(meta: Option<Content>): Option<string> {
    if meta.None? || !meta.value.Container? || meta.value.children == [] then None
    else Some(meta.value.children[|meta.value.children| - 1])
  }

  // Read the record, read the last child's value, delete that child.
  function PopBack(setter: Setter, v: View, tx: nat, dir: string): PopResult {
    if !HasSuffix(dir, "/") then PopResult(v, None, Refused)
    else if Read(v, dir).None? || !Read(v, dir).value.Container? then PopResult(v, None, Panicked)
    else
      var last := LastKey(Read(v, dir));
      if last.None? then PopResult(v, None, Refused)
      else
        var key := dir + last.value;
        var value := Read(v, key);
        if value.None? then PopResult(v, None, Refused)
        else
          var w := Write(setter, v, tx, key, None, Has(v, Parent(key)));
          PopResult(w.view, value, if w.ok then Done else Refused)
  }

  // What a pop comes to: not a directory, no record to read, an empty record, a last child
  // without a value, or the outcome of deleting that child.
  lemma PopOutcome(setter: Setter, v: View, tx: nat, dir: string)
    ensures var r := PopBack(setter, v, tx, dir);
            && (!HasSuffix(dir, "/") ==> r == PopResult(v, None, Refused))
            && (HasSuffix(dir, "/") && (!Visible(v, dir) || dir !in v) ==> r == PopResult(v, None, Panicked))
            && (HasSuffix(dir, "/") && Visible(v, dir) && dir in v && v[dir] == Container([]) ==>
                  r == PopResult(v, None, Refused))
  {
  }

  // In a consistent view a pop of a record that names children gives the last one's value
  // and takes it away.
  lemma PopTakesLast(setter: Setter, v: View, tx: nat, dir: string)
    requires Consistent(v) && PlainRecords(v) && StackReady(v, tx, dir) && v[dir].children != []
    ensures var children := v[dir].children;
            var key := children[|children| - 1];
            var r := PopBack(setter, v, tx, dir);
            && dir + key in v && r.value == Some(v[dir + key]) && r.outcome == Done
            && r.view == (v - {dir + key})[dir := Container(children[..|children| - 1])]
  {
    LastChildThere(v, tx, dir);
    LastChildDeleted(setter, v, tx, dir);
  }

  lemma LastChildDeleted(setter: Setter, v: View, tx: nat, dir: string)
    requires Consistent(v) && StackReady(v, tx, dir) && v[dir].children != []
    ensures var children := v[dir].children;
            var key := children[|children| - 1];
            Write(setter, v, tx, dir + key, None, true)
            == WriteResult((v - {dir + key})[dir := Container(children[..|children| - 1])], true)
  {
    var children := v[dir].children;
    var key := children[|children| - 1];
    LastChildThere(v, tx, dir);
    RemoveLast(children[..|children| - 1], key);
    assert children == children[..|children| - 1] + [key];
    assert SetRecorded(setter, v, tx, dir + key, None) == Record(v - {dir + key}, dir, key, false);
  }

  lemma LastChildThere(v: View, tx: nat, dir: string)
    requires Consistent(v) && StackReady(v, tx, dir) && v[dir].children != []
    ensures var key := v[dir].children[|v[dir].children| - 1];
            && dir + key in v && Listed(v, dir + key)
            && Parent(dir + key) == dir && ChildKey(dir + key) == key
            && Parent(dir) != dir && Parent(dir) != dir + key && key !in v[dir].children[..|v[dir].children| - 1]
  {
    var children := v[dir].children;
    var key := children[|children| - 1];
    assert key in children && ProperRecord(children);
    assert IsDirectory(dir) && Tracks(dir, 0);
    ChildSplits(dir, key, tx);
    assert forall i :: 0 <= i < |children| - 1 ==> children[i] != key;
  }

  lemma ChildSplits(dir: string, key: string, tx: nat)
    requires IsDirectory(dir) && Tracks(dir, tx) && IsChildKey(key)
    ensures Parent(dir + key) == dir && ChildKey(dir + key) == key && dir + key != dir
    ensures Parent(dir) != dir && Parent(dir) != dir + key
  {
    TrackedNotRoot(dir, tx);
    ParentOfChild(dir, key);
    ParentSplits(dir);
  }

  function Push(setter: Setter, v: View, tx: nat, dir: string, key: string, x: Value): View {
    Write(setter, v, tx, dir + key, Some(Datum(x)), Has(v, Parent(dir + key))).view
  }

  // A directory whose record a read finds and a write updates.
  ghost predicate StackReady(v: View, tx: nat, dir: string) {
    && HasSuffix(dir, "/") && Tracks(dir, tx)
    && dir in v && v[dir].Container? && Visible(v, dir)
  }

  ghost predicate FreshKey(v: View, dir: string, key: string) {
    && IsChildKey(key) && key[|key| - 1] != '/' && IsPlain(dir + key)
    && dir in v && v[dir].Container? && key !in v[dir].children && dir + key !in v
  }

  lemma PushSplits(v: View, tx: nat, dir: string, key: string)
    requires StackReady(v, tx, dir) && FreshKey(v, dir, key)
    ensures Parent(dir + key) == dir && ChildKey(dir + key) == key && dir + key != dir
    ensures Parent(dir) != dir && Parent(dir) != dir + key
  {
    TrackedNotRoot(dir, tx);
    ParentOfChild(dir, key);
    ParentSplits(dir);
  }

  lemma PushRecorded(setter: Setter, v: View, tx: nat, dir: string, key: string, x: Value)
    requires StackReady(v, tx, dir) && FreshKey(v, dir, key)
    ensures SetRecorded(setter, v, tx, dir + key, Some(Datum(x))).ok
    ensures SetRecorded(setter, v, tx, dir + key, Some(Datum(x))).view
         == v[dir + key := Datum(setter(None, x))][dir := Container(v[dir].children + [key])]
  {
    PushSplits(v, tx, dir, key);
  }

  lemma PushEffect(setter: Setter, v: View, tx: nat, dir: string, key: string, x: Value)
    requires StackReady(v, tx, dir) && FreshKey(v, dir, key)
    ensures Parent(dir + key) == dir && ChildKey(dir + key) == key
    ensures Push(setter, v, tx, dir, key, x)
         == v[dir + key := Datum(setter(None, x))][dir := Container(v[dir].children + [key])]
    ensures StackReady(Push(setter, v, tx, dir, key, x), tx, dir)
  {
    PushSplits(v, tx, dir, key);
    PushRecorded(setter, v, tx, dir, key, x);
  }

  lemma PushedIsLast(setter: Setter, v: View, tx: nat, dir: string, key: string, x: Value)
    requires StackReady(v, tx, dir) && FreshKey(v, dir, key)
    ensures Read(Push(setter, v, tx, dir, key, x), dir) == Some(Container(v[dir].children + [key]))
    ensures LastKey(Read(Push(setter, v, tx, dir, key, x), dir)) == Some(key)
    ensures Read(Push(setter, v, tx, dir, key, x), dir + key) == Some(Datum(setter(None, x)))
  {
    PushEffect(setter, v, tx, dir, key, x);
    var children := v[dir].children;
    assert (children + [key])[|children|] == key;
  }

  lemma DeletePushed(setter: Setter, v: View, tx: nat, dir: string, key: string, x: Value)
    requires StackReady(v, tx, dir) && FreshKey(v, dir, key)
    ensures Write(setter, Push(setter, v, tx, dir, key, x), tx, dir + key, None, true) == WriteResult(v, true)
  {
    PushSplits(v, tx, dir, key);
    PushEffect(setter, v, tx, dir, key, x);
    var w, children := Push(setter, v, tx, dir, key, x), v[dir].children;
    RemoveLast(children, key);
    assert SetRecorded(setter, w, tx, dir + key, None) == Record(w - {dir + key}, dir, key, false);
    assert (w - {dir + key})[dir := Container(children)] == v;
  }

  lemma RemoveLast(children: seq<string>, key: string)
    requires key !in children
    ensures UpdateChildren(children + [key], key, false) == children
  {
    FilterSnoc(Without(key), children, key);
    FilterAll(Without(key), children);
  }

  // Popping undoes the push and returns what was pushed.
  lemma PopUndoesPush(setter: Setter, v: View, tx: nat, dir: string, key: string, x: Value)
    requires StackReady(v, tx, dir) && FreshKey(v, dir, key)
    ensures PopBack(setter, Push(setter, v, tx, dir, key, x), tx, dir)
         == PopResult(v, Some(Datum(setter(None, x))), Done)
  {
    PushedIsLast(setter, v, tx, dir, key, x);
    DeletePushed(setter, v, tx, dir, key, x);
    PushEffect(setter, v, tx, dir, key, x);
  }

  function PushAll(setter: Setter, v: View, tx: nat, dir: string, keys: seq<string>, xs: seq<Value>): View
    requires |keys| == |xs|
  {
    if keys == [] then v
    else
      var n := |keys| - 1;
      Push(setter, PushAll(setter, v, tx, dir, keys[..n], xs[..n]), tx, dir, keys[n], xs[n])
  }

  datatype PopsResult = PopsResult(view: View, values: seq<Content>, ok: bool)

  function PopN(setter: Setter, v: View, tx: nat, dir: string, n: nat): PopsResult {
    if n == 0 then PopsResult(v, [], true)
    else
      var r := PopBack(setter, v, tx, dir);
      if r.outcome != Done || r.value.None? then PopsResult(r.view, [], false)
      else
        var rest := PopN(setter, r.view, tx, dir, n - 1);
        PopsResult(rest.view, [r.value.value] + rest.values, rest.ok)
  }

  // What setting each value in a new cell leaves.
  function DataOf(setter: Setter, xs: seq<Value>): (r: seq<Content>)
    ensures |r| == |xs|
  {
    seq(|xs|, i requires 0 <= i < |xs| => Datum(setter(None, xs[i])))
  }

  ghost predicate FreshKeys(v: View, dir: string, keys: seq<string>) {
    Distinct(keys) && forall i :: 0 <= i < |keys| ==> FreshKey(v, dir, keys[i])
  }

  lemma FreshAfterPush(setter: Setter, v: View, tx: nat, dir: string, key: string, x: Value, k: string)
    requires StackReady(v, tx, dir) && FreshKey(v, dir, key) && FreshKey(v, dir, k) && k != key
    ensures FreshKey(Push(setter, v, tx, dir, key, x), dir, k)
  {
    PushEffect(setter, v, tx, dir, key, x);
    assert (dir + k)[|dir|..] == k && (dir + key)[|dir|..] == key;
  }

  // Pushing other keys keeps the directory ready and a fresh key fresh.
  lemma {:induction false} PushAllReady(setter: Setter, v: View, tx: nat, dir: string, keys: seq<string>,
                                        xs: seq<Value>)
    requires |keys| == |xs| && StackReady(v, tx, dir) && FreshKeys(v, dir, keys)
    ensures StackReady(PushAll(setter, v, tx, dir, keys, xs), tx, dir)
    ensures forall k :: FreshKey(v, dir, k) && k !in keys ==> FreshKey(PushAll(setter, v, tx, dir, keys, xs), dir, k)
    decreases |keys|
  {
    if keys != [] {
      var n := |keys| - 1;
      PushAllReady(setter, v, tx, dir, keys[..n], xs[..n]);
      var w := PushAll(setter, v, tx, dir, keys[..n], xs[..n]);
      assert keys[n] !in keys[..n] && FreshKey(v, dir, keys[n]);
      PushEffect(setter, w, tx, dir, keys[n], xs[n]);
      forall k | FreshKey(v, dir, k) && k !in keys ensures FreshKey(Push(setter, w, tx, dir, keys[n], xs[n]), dir, k) {
        FreshAfterPush(setter, w, tx, dir, keys[n], xs[n], k);
      }
    }
  }

  lemma ReverseData(setter: Setter, xs: seq<Value>)
    requires xs != []
    ensures var n := |xs| - 1;
            Reverse(DataOf(setter, xs)) == [Datum(setter(None, xs[n]))] + Reverse(DataOf(setter, xs[..n]))
  {
    var n := |xs| - 1;
    assert DataOf(setter, xs) == DataOf(setter, xs[..n]) + [Datum(setter(None, xs[n]))];
    ReverseSnoc(DataOf(setter, xs[..n]), Datum(setter(None, xs[n])));
  }

  lemma PopNStep(setter: Setter, w: View, u: View, v: View, tx: nat, dir: string, n: nat, x: Content,
                 rest: seq<Content>)
    requires PopBack(setter, w, tx, dir) == PopResult(u, Some(x), Done)
    requires PopN(setter, u, tx, dir, n) == PopsResult(v, rest, true)
    ensures PopN(setter, w, tx, dir, n + 1) == PopsResult(v, [x] + rest, true)
  {
  }

  // Stack discipline: push n fresh keys, pop n times, and what was stored for each comes
  // back last first while the whole view is what it was.
  lemma {:induction false} StackDiscipline(setter: Setter, v: View, tx: nat, dir: string, keys: seq<string>,
                                           xs: seq<Value>)
    requires |keys| == |xs| && StackReady(v, tx, dir) && FreshKeys(v, dir, keys)
    ensures PopN(setter, PushAll(setter, v, tx, dir, keys, xs), tx, dir, |keys|)
         == PopsResult(v, Reverse(DataOf(setter, xs)), true)
    decreases |keys|
  {
    if keys == [] {
      assert DataOf(setter, xs) == [];
    } else {
      var n := |keys| - 1;
      var w := PushAll(setter, v, tx, dir, keys[..n], xs[..n]);
      StackDiscipline(setter, v, tx, dir, keys[..n], xs[..n]);
      PushAllReady(setter, v, tx, dir, keys[..n], xs[..n]);
      assert keys[n] !in keys[..n] && FreshKey(v, dir, keys[n]);
      PopUndoesPush(setter, w, tx, dir, keys[n], xs[n]);
      PopNStep(setter, PushAll(setter, v, tx, dir, keys, xs), w, v, tx, dir, n,
               Datum(setter(None, xs[n])), Reverse(DataOf(setter, xs[..n])));
      ReverseData(setter, xs);
    }
  }

  // So it is in every account's container, for every writer.
  lemma ContainerIsStack(setter: Setter, v: View, tx: nat, addr: string, keys: seq<string>, xs: seq<Value>)
    requires IsAddress(addr) && |keys| == |xs|
    requires var dir := AccountPath(addr, "storage/container/");
             dir in v && v[dir].Container? && FreshKeys(v, dir, keys)
    ensures var dir := AccountPath(addr, "storage/container/");
            && StackReady(v, tx, dir)
            && PopN(setter, PushAll(setter, v, tx, dir, keys, xs), tx, dir, |keys|)
               == PopsResult(v, Reverse(DataOf(setter, xs)), true)
  {
    ContainerOfAccount(addr, "k", tx);
    StackDiscipline(setter, v, tx, AccountPath(addr, "storage/container/"), keys, xs);
  }
}
