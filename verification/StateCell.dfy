/**
 The state cell: one transition on one path, produced by one transaction.  The
 cells are shared by reference between the committer's two indexes and every
 writer's buffers; rejecting or merging a transition is signalled only by setting
 the path of the shared object to nil.
 */
module Cells {

  datatype Option<+T> = None | Some(value: T)

  // The payload of a cell (a CRDT in the system); its structure plays no part here.
  type Value(==, !new)

  // A nil value is a deletion.
  type Val = Option<Value>

  // One step of ApplyDelta: the effect of a later transition on the base value.
  type Apply = (Val, Val) -> Val

  // The writer ID that skips conflict detection (math.MaxInt32).
  const SYSTEM: nat := 2147483647

  class StateCell {
    var path: Option<string>
    var value: Val
    const tx: nat
    const skipConflictCheck: bool
    const blockBound: bool

    constructor (tx: nat, path: string, value: Val, skip: bool, blockBound: bool)
      ensures this.path == Some(path) && this.value == value && this.tx == tx
      ensures skipConflictCheck == skip && this.blockBound == blockBound
    {
      this.tx, this.path, this.value := tx, Some(path), value;
      this.skipConflictCheck, this.blockBound := skip, blockBound;
    }

    ghost function State(): CellState
      reads this
    {
      CellState(path, value)
    }
  }

  // The mutable part of a cell, and the part of the heap that holds a set of cells.
  datatype CellState = CellState(path: Option<string>, value: Val)
  type Heap = map<StateCell, CellState>
}
