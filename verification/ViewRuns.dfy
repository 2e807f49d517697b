/**
 Runs of mixed calls on an execution store object, against the eager map.
 */
module ViewRuns {
  import opened Cells
  import opened Paths
  import opened EagerViews
  import opened ExecutionView

  datatype Call =
    | ReadCall(path: string, add: bool)
    | WriteCall(tx: nat, path: string, content: Option<Content>)
    | PopCall(tx: nat, dir: string)

  datatype Reply =
    | Found(value: Option<Content>, ok: bool)
    | Written(ok: bool)
    | Popped(value: Option<Content>, outcome: Outcome)

  // What stays, and what a call may change: the view and which paths have a local cell.
  datatype Setting = Setting(wildcards: seq<string>, committed: View, setter: Setter)

  datatype Session = Session(view: View, resolved: set<string>)

  datatype Reaction = Reaction(next: Session, reply: Reply)

  // What a call does to the eager map.  Which paths earlier calls resolved matters to a
  // write alone, and only for what Has answers about a parent under a pending delete.
  function EagerCall(b: Setting, s: Session, call: Call): Reaction {
    match call
    case ReadCall(path, add) =>
      var keys := AfterRead(s.resolved, b.wildcards, s.view, path, add);
      Reaction(Session(s.view, keys), Found(Read(s.view, path), Visible(s.view, path)))
    case WriteCall(tx, path, c) =>
      var there := Answer(s.resolved, b.wildcards, b.committed, s.view, Parent(path));
      var w := Write(b.setter, s.view, tx, path, c, there);
      var keys := if there || tx == SYSTEM then AfterWrite(s.resolved, b.wildcards, b.setter, s.view, tx, path, c)
                  else s.resolved;
      Reaction(Session(w.view, keys), Written(w.ok))
    case PopCall(tx, dir) =>
      var r := PopBack(b.setter, s.view, tx, dir);
      var keys := AfterPop(s.resolved, b.wildcards, b.setter, s.view, tx, dir);
      Reaction(Session(r.view, keys), Popped(r.value, r.outcome))
  }

  datatype History = History(end: Session, replies: seq<Reply>)

  function EagerCalls(b: Setting, s: Session, calls: seq<Call>): History
    decreases |calls|
  {
    if calls == [] then History(s, [])
    else
      var r := EagerCall(b, s, calls[0]);
      var rest := EagerCalls(b, r.next, calls[1..]);
      History(rest.end, [r.reply] + rest.replies)
  }

  // Calls of ordinary transactions on plain paths.
  ghost predicate Ordinary(call: Call) {
    match call
    case ReadCall(_, _) => true
    case WriteCall(tx, path, c) => tx != SYSTEM && Writable(path, c)
    case PopCall(tx, _) => tx != SYSTEM
  }

  lemma PopIsWrite(setter: Setter, v: View, tx: nat, dir: string)
    requires Consistent(v) && PlainRecords(v)
    ensures var r := PopBack(setter, v, tx, dir);
            r.view == v || exists key :: Writable(key, None) && r.view == Write(setter, v, tx, key, None, true).view
  {
    var last := LastKey(Read(v, dir));
    if last.Some? {
      var key := dir + last.value;
      assert last.value in v[dir].children && Writable(key, None);
      if PopBack(setter, v, tx, dir).view != v {
        assert PopBack(setter, v, tx, dir).view == Write(setter, v, tx, key, None, true).view;
      }
    }
  }

  lemma CallKeeps(b: Setting, s: Session, call: Call)
    requires Consistent(s.view) && PlainRecords(s.view) && Ordinary(call)
    ensures var v' := EagerCall(b, s, call).next.view; Consistent(v') && PlainRecords(v')
  {
    match call
    case ReadCall(_, _) =>
    case WriteCall(tx, path, c) =>
      if Answer(s.resolved, b.wildcards, b.committed, s.view, Parent(path)) {
        WriteKeepsMembership(b.setter, s.view, tx, path, c, true);
        WriteKeepsPlain(b.setter, s.view, tx, path, c, true);
      }
    case PopCall(tx, dir) =>
      PopIsWrite(b.setter, s.view, tx, dir);
      if PopBack(b.setter, s.view, tx, dir).view != s.view {
        var key :| && Writable(key, None)
                   && PopBack(b.setter, s.view, tx, dir).view == Write(b.setter, s.view, tx, key, None, true).view;
        WriteKeepsMembership(b.setter, s.view, tx, key, None, true);
        WriteKeepsPlain(b.setter, s.view, tx, key, None, true);
      }
  }

  // The object's setting and session.
  ghost function SettingOf(store: ExecutionStateStore): Setting {
    Setting(store.wildcards, store.committed, store.setter)
  }

  ghost function SessionOf(store: ExecutionStateStore): Session
    reads store, store.localCells.Values
  {
    Session(store.View(), store.localCells.Keys)
  }

  method PerformCall(store: ExecutionStateStore, call: Call) returns (reply: Reply)
    requires store.Valid() && Consistent(store.View()) && PlainRecords(store.View()) && Ordinary(call)
    modifies store, store.localCells.Values
    ensures store.Valid() && fresh(store.localCells.Values - old(store.localCells.Values))
    ensures Reaction(SessionOf(store), reply) == EagerCall(SettingOf(store), old(SessionOf(store)), call)
  {
    match call
    case ReadCall(path, add) =>
      var value, ok := store.ReadCell(path, add);
      reply := Found(value, ok);
    case WriteCall(tx, path, c) =>
      var ok := store.Write(tx, path, c);
      reply := Written(ok);
    case PopCall(tx, dir) =>
      var value, outcome := store.PopBack(tx, dir);
      reply := Popped(value, outcome);
  }

  // Any run of reads, writes and pops by ordinary transactions, over any pending deletes:
  // the object replies as the eager map does, ends in its view, and keeps the membership
  // invariant.
  method PerformCalls(store: ExecutionStateStore, calls: seq<Call>) returns (replies: seq<Reply>)
    requires store.Valid() && Consistent(store.View()) && PlainRecords(store.View())
    requires forall i :: 0 <= i < |calls| ==> Ordinary(calls[i])
    modifies store, store.localCells.Values
    ensures store.Valid() && fresh(store.localCells.Values - old(store.localCells.Values))
    ensures Consistent(store.View()) && PlainRecords(store.View())
    ensures History(SessionOf(store), replies) == EagerCalls(SettingOf(store), old(SessionOf(store)), calls)
    decreases |calls|
  {
    if calls == [] {
      return [];
    }
    CallKeeps(SettingOf(store), SessionOf(store), calls[0]);
    var reply := PerformCall(store, calls[0]);
    var rest := PerformCalls(store, calls[1..]);
    replies := [reply] + rest;
  }
}
