/** The undo/redo store (src/hooks/useHistory.ts): a list of states and the
    index of the current one. `setState` either appends (cutting the redo
    tail, unless the new state is indistinguishable from the current one) or
    overwrites the current slot in place. */
module HistoryStore {

  /** The value held by a history store. */
  datatype Timeline<T> = Timeline(entries: seq<T>, index: nat) {

    ghost predicate Valid() {
      index < |entries|
    }

    function Current(): T
      requires Valid()
    {
      entries[index]
    }

    /** `canUndo` */
    predicate CanUndo() {
      index > 0
    }

    /** `canRedo` */
    predicate CanRedo() {
      index < |entries| - 1
    }

    /** `setState(next)` without overwrite. `same` is the equality the store
        dedupes with; a state it calls equal to the current one is dropped.
        Otherwise the entries up to the current one are kept, the redo tail is
        dropped and `next` becomes the last and current entry. */
    function Commit(next: T, same: (T, T) -> bool): (r: Timeline<T>)
      requires Valid()
      ensures r.Valid()
      ensures same(Current(), next) ==> r == this
      ensures !same(Current(), next) ==>
        && |r.entries| == index + 2
        && r.entries[..index + 1] == entries[..index + 1]
        && r.index == index + 1
        && r.Current() == next
        && r.CanUndo() && !r.CanRedo()
    {
      if same(Current(), next) then this
      else Timeline(entries[..index + 1] + [next], index + 1)
    }

    /** `setState(next, true)`: the current slot is replaced, nothing else
        changes, and no equality check is made. */
    function Overwrite(next: T): (r: Timeline<T>)
      requires Valid()
      ensures r.Valid()
      ensures |r.entries| == |entries| && r.index == index && r.Current() == next
      ensures forall k :: 0 <= k < |entries| && k != index ==> r.entries[k] == entries[k]
      ensures r.CanUndo() == CanUndo() && r.CanRedo() == CanRedo()
    {
      Timeline(entries[index := next], index)
    }

    /** `undo`: one step back, or nothing at the first entry. */
    function Undo(): (r: Timeline<T>)
      requires Valid()
      ensures r.Valid() && r.entries == entries
      ensures CanUndo() ==> r.index == index - 1
      ensures !CanUndo() ==> r == this
    {
      if index > 0 then Timeline(entries, index - 1) else this
    }

    /** `redo`: one step forward, or nothing at the last entry. */
    function Redo(): (r: Timeline<T>)
      requires Valid()
      ensures r.Valid() && r.entries == entries
      ensures CanRedo() ==> r.index == index + 1
      ensures !CanRedo() ==> r == this
    {
      if index < |entries| - 1 then Timeline(entries, index + 1) else this
    }
  }

  /** `resetHistory(s)`: exactly one entry, nothing to undo or redo. */
  function Reset<T>(s: T): (r: Timeline<T>)
    ensures r.Valid() && r.entries == [s] && r.Current() == s
    ensures !r.CanUndo() && !r.CanRedo()
  {
    Timeline([s], 0)
  }

  /** Undo right after an append returns the previous state; redo then
      returns the appended one. */
  lemma UndoAfterCommit<T>(t: Timeline<T>, next: T, same: (T, T) -> bool)
    requires t.Valid() && !same(t.Current(), next)
    ensures t.Commit(next, same).Undo().Current() == t.Current()
    ensures t.Commit(next, same).Undo().Redo() == t.Commit(next, same)
    ensures t.Commit(next, same).Undo().Redo().Current() == next
  {
    var c := t.Commit(next, same);
    assert c.entries[t.index] == c.entries[..t.index + 1][t.index] == t.entries[..t.index + 1][t.index];
  }

  /** Undo and redo are inverse wherever they move. */
  lemma UndoRedoInverse<T>(t: Timeline<T>)
    requires t.Valid()
    ensures t.CanUndo() ==> t.Undo().Redo() == t
    ensures t.CanRedo() ==> t.Redo().Undo() == t
  {
  }

  /** A run of appends followed by as many undos lands on the state the run
      started from, provided no append was dropped as a duplicate. */
  lemma {:induction false} UndoAll<T>(t: Timeline<T>, nexts: seq<T>, same: (T, T) -> bool)
    requires t.Valid()
    requires CommitsAll(t, nexts, same)
    ensures UndoTimes(CommitAll(t, nexts, same), |nexts|).Current() == t.Current()
    ensures UndoTimes(CommitAll(t, nexts, same), |nexts|).entries[..t.index + 1] == t.entries[..t.index + 1]
    decreases |nexts|
  {
    if nexts != [] {
      var c := t.Commit(nexts[0], same);
      UndoAll(c, nexts[1..], same);
      var u := UndoTimes(CommitAll(c, nexts[1..], same), |nexts| - 1);
      assert u.Current() == c.Current() && u.entries[..c.index + 1] == c.entries[..c.index + 1];
      assert u.index == c.index;
      assert UndoTimes(CommitAll(t, nexts, same), |nexts|) == u.Undo();
      assert u.entries[..t.index + 1] == c.entries[..t.index + 1] == t.entries[..t.index + 1];
      assert u.Undo().Current() == u.entries[t.index] == u.entries[..t.index + 1][t.index];
    }
  }

  /** Every append of the run takes effect: none is a duplicate of the state before it. */
  ghost predicate CommitsAll<T>(t: Timeline<T>, nexts: seq<T>, same: (T, T) -> bool)
    requires t.Valid()
    decreases |nexts|
  {
    nexts != [] ==> !same(t.Current(), nexts[0]) && CommitsAll(t.Commit(nexts[0], same), nexts[1..], same)
  }

  function CommitAll<T>(t: Timeline<T>, nexts: seq<T>, same: (T, T) -> bool): (r: Timeline<T>)
    requires t.Valid()
    ensures r.Valid()
    ensures CommitsAll(t, nexts, same) ==> r.index == t.index + |nexts|
    decreases |nexts|
  {
    if nexts == [] then t else CommitAll(t.Commit(nexts[0], same), nexts[1..], same)
  }

  function UndoTimes<T>(t: Timeline<T>, n: nat): (r: Timeline<T>)
    requires t.Valid()
    ensures r.Valid() && r.entries == t.entries
    ensures n <= t.index ==> r.index == t.index - n
    decreases n
  {
    if n == 0 then t else UndoTimes(t.Undo(), n - 1)
  }

  /** The store as the hook keeps it: a list that is replaced or sliced and an
      index that moves one step at a time. */
  class History<T> {
    var history: seq<T>
    var index: nat

    ghost predicate Valid()
      reads this
    {
      index < |history|
    }

    function View(): Timeline<T>
      reads this
    {
      Timeline(history, index)
    }

    /** `state` */
    function State(): T
      reads this
      requires Valid()
    {
      history[index]
    }

    constructor (initial: T)
      ensures Valid() && View() == Reset(initial)
    {
      history := [initial];
      index := 0;
    }

    method SetState(next: T, overwrite: bool, same: (T, T) -> bool)
      requires Valid()
      modifies this
      ensures Valid()
      ensures overwrite ==> View() == old(View()).Overwrite(next)
      ensures !overwrite ==> View() == old(View()).Commit(next, same)
      ensures forall x :: x in history ==> x in old(history) || x == next
    {
      var current := history[index];
      if !overwrite && same(current, next) {
        return;
      }
      if overwrite {
        history := history[index := next];
      } else {
        history := history[..index + 1] + [next];
        index := |history| - 1;
      }
    }

    method Undo()
      requires Valid()
      modifies this
      ensures Valid() && View() == old(View()).Undo()
    {
      if index > 0 {
        index := index - 1;
      }
    }

    method Redo()
      requires Valid()
      modifies this
      ensures Valid() && View() == old(View()).Redo()
    {
      if index < |history| - 1 {
        index := index + 1;
      }
    }

    method ResetHistory(s: T)
      modifies this
      ensures Valid() && View() == Reset(s)
    {
      history := [s];
      index := 0;
    }
  }
}
