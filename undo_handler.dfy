/**
 * The undo engine as the object the editor holds: fields that its methods
 * update in place, each method proved to move the object's state exactly as
 * the matching function of UndoSpec moves an Engine value.
 */
module UndoEngine {
  import opened Wrappers
  import opened UndoSpec

  class UndoHandler {
    /** The open history list; entries before `cursor` are applied, the rest undone. */
    var entries: seq<Actor>
    var cursor: nat
    /** The lists and cursors of the enclosing transactions, innermost last. */
    var saved: seq<Frame>
    var actionFrameStarted: bool
    var timeOfLastAdd: int
    var deactivated: bool
    var undoActionRunning: bool
    /** Every `undo()` and `act()` call made on an actor so far, oldest first. */
    var log: seq<Call>

    ghost function State(): Engine
      reads this
    {
      Engine(entries, cursor, saved, actionFrameStarted, timeOfLastAdd, deactivated, log)
    }

    /** Between calls the state is a valid engine and no undo action is running. */
    ghost predicate Valid()
      reads this
    {
      State().Valid() && !undoActionRunning
    }

    constructor ()
      ensures Valid() && State() == Initial()
    {
      entries, cursor, saved := [], 0, [];
      actionFrameStarted, timeOfLastAdd, deactivated := false, 0, false;
      undoActionRunning := false;
      log := [];
    }

    /** Opens the frame if it is closed and the caller runs on the dispatch thread. */
    method StartActionFrame(onDispatchThread: bool)
      modifies this
      ensures State() == UndoSpec.StartActionFrame(old(State()), onDispatchThread)
      ensures undoActionRunning == old(undoActionRunning)
    {
      if !actionFrameStarted && onDispatchThread {
        actionFrameStarted := true;
      }
    }

    /** The reset that startActionFrame schedules for the end of the event-queue turn. */
    method EndOfTurn()
      requires Valid()
      modifies this
      ensures Valid() && State() == UndoSpec.EndOfTurn(old(State()))
    {
      actionFrameStarted := false;
    }

    method Deactivate(onDispatchThread: bool)
      requires Valid()
      modifies this
      ensures Valid() && State() == UndoSpec.Deactivate(old(State()), onDispatchThread)
    {
      deactivated := true;
      StartActionFrame(onDispatchThread);
    }

    /** Removes, one at a time, every entry after the cursor. */
    method ResetRedo()
      requires Valid()
      modifies this
      ensures Valid() && State() == UndoSpec.ResetRedo(old(State()))
    {
      while cursor < |entries|
        invariant cursor == old(cursor) <= |entries| <= old(|entries|)
        invariant entries[..cursor] == old(entries[..cursor])
        invariant saved == old(saved) && log == old(log) && deactivated == old(deactivated)
        invariant actionFrameStarted == old(actionFrameStarted) && timeOfLastAdd == old(timeOfLastAdd)
        invariant undoActionRunning == old(undoActionRunning)
        decreases |entries| - cursor
      {
        // next() then remove(): the entry just after the cursor goes
        entries := entries[..cursor] + entries[cursor + 1..];
      }
    }

    method AddActor(actor: Actor, currentTime: int, onDispatchThread: bool)
      requires Valid()
      modifies this
      ensures Valid() && State() == UndoSpec.AddActor(old(State()), actor, currentTime, onDispatchThread)
    {
      ResetRedo();
      if deactivated {
        if !actionFrameStarted && currentTime - timeOfLastAdd > TIME_TO_BEGIN_NEW_ACTION {
          deactivated := false;
        } else {
          if |entries| > 0 {
            entries, cursor := [], 0;
          }
          return;
        }
      }
      Record(actor, currentTime, onDispatchThread);
    }

    /** addActor past the muting check. */
    method Record(actor: Actor, currentTime: int, onDispatchThread: bool)
      requires Valid() && cursor == |entries|
      modifies this
      ensures State() == UndoSpec.Record(old(State()), actor, currentTime, onDispatchThread)
      ensures undoActionRunning == old(undoActionRunning)
    {
      ghost var h := State();
      ghost var s: seq<Actor>;
      if |entries| > 0 && (actionFrameStarted || currentTime - timeOfLastAdd < TIME_TO_BEGIN_NEW_ACTION) {
        FoldIntoLastEntry(actor);
        s := FoldIntoLast(h.entries, actor);
        assert State() == h.(entries := s, cursor := |s|);
      } else {
        AppendEvicting(actor);
        s := AppendBounded(h.entries, actor);
        assert State() == h.(entries := s, cursor := |s|);
      }
      StartActionFrame(onDispatchThread);
      timeOfLastAdd := currentTime;
      RecordSteps(h, actor, currentTime, onDispatchThread);
    }

    /** The merge branch of addActor: previous(), wrap the entry in a compound if it is not one, add, next(). */
    method FoldIntoLastEntry(actor: Actor)
      requires cursor == |entries| > 0
      modifies this
      ensures entries == FoldIntoLast(old(entries), actor) && cursor == old(cursor)
      ensures saved == old(saved) && log == old(log) && deactivated == old(deactivated)
      ensures actionFrameStarted == old(actionFrameStarted) && timeOfLastAdd == old(timeOfLastAdd)
      ensures undoActionRunning == old(undoActionRunning)
    {
      var last := entries[cursor - 1];
      var compound := last;
      if !last.Compound? {
        compound := Compound([last]);
        entries := entries[cursor - 1 := compound];
      }
      compound := Compound(compound.children + [actor]);
      entries := entries[cursor - 1 := compound];
      assert !last.Compound? ==> [last] + [actor] == [last, actor];
    }

    /** The append branch of addActor: add at the cursor, then removeFirst() while over MAX_ENTRIES. */
    method AppendEvicting(actor: Actor)
      requires cursor == |entries|
      modifies this
      ensures entries == AppendBounded(old(entries), actor) && cursor == |entries|
      ensures saved == old(saved) && log == old(log) && deactivated == old(deactivated)
      ensures actionFrameStarted == old(actionFrameStarted) && timeOfLastAdd == old(timeOfLastAdd)
      ensures undoActionRunning == old(undoActionRunning)
    {
      entries, cursor := entries[..cursor] + [actor] + entries[cursor..], cursor + 1;
      ghost var appended := entries;
      assert appended == old(entries) + [actor];
      while |entries| > MAX_ENTRIES
        invariant |entries| <= |appended| && entries == appended[|appended| - |entries|..]
        invariant |appended| > MAX_ENTRIES ==> |entries| >= MAX_ENTRIES
        invariant |appended| <= MAX_ENTRIES ==> entries == appended
        invariant cursor == |entries|
        invariant saved == old(saved) && log == old(log) && deactivated == old(deactivated)
        invariant actionFrameStarted == old(actionFrameStarted) && timeOfLastAdd == old(timeOfLastAdd)
        invariant undoActionRunning == old(undoActionRunning)
      {
        entries := entries[1..];
        cursor := |entries|;
      }
      assert AppendBounded(old(entries), actor) == Evict(appended);
    }

    method CanUndo() returns (b: bool)
      requires Valid()
      ensures b <==> entries[..cursor] != []
    {
      b := cursor > 0;
    }

    method CanRedo() returns (b: bool)
      requires Valid()
      ensures b <==> entries[cursor..] != []
    {
      b := cursor < |entries|;
    }

    method GetLastDescription() returns (d: Option<Actor>)
      requires Valid()
      ensures d == LastDescribed(State())
    {
      if cursor > 0 {
        d := Some(entries[|entries| - 1]);
      } else {
        d := None;
      }
    }

    method IsUndoActionRunning() returns (b: bool)
      requires Valid()
      ensures b == undoActionRunning && !b
    {
      b := undoActionRunning;
    }

    /** The one place an actor is called: only while the undo action is marked running. */
    method Invoke(c: Call)
      requires undoActionRunning
      modifies this
      ensures log == old(log) + [c]
      ensures entries == old(entries) && cursor == old(cursor) && saved == old(saved)
      ensures actionFrameStarted == old(actionFrameStarted) && timeOfLastAdd == old(timeOfLastAdd)
      ensures deactivated == old(deactivated) && undoActionRunning
    {
      log := log + [c];
    }

    method Undo()
      requires Valid()
      modifies this
      ensures Valid() && State() == UndoSpec.Undo(old(State()))
    {
      if cursor > 0 {
        cursor := cursor - 1;
        var actor := entries[cursor];
        undoActionRunning := true;
        Invoke(UndoCall(actor));
        undoActionRunning := false;
      }
    }

    method Redo()
      requires Valid()
      modifies this
      ensures Valid() && State() == UndoSpec.Redo(old(State()))
    {
      if cursor < |entries| {
        var actor := entries[cursor];
        cursor := cursor + 1;
        undoActionRunning := true;
        Invoke(ActCall(actor));
        undoActionRunning := false;
      }
    }

    method StartTransaction()
      requires Valid()
      modifies this
      ensures Valid() && State() == UndoSpec.StartTransaction(old(State()))
    {
      saved := saved + [Frame(entries, cursor)];
      entries, cursor := [], 0;
    }

    /** `thrown` is the NoSuchElementException of popping an empty transaction stack. */
    method Commit(currentTime: int, onDispatchThread: bool) returns (thrown: bool)
      requires Valid()
      modifies this
      ensures Valid() && State() == UndoSpec.Commit(old(State()), currentTime, onDispatchThread)
      ensures thrown <==> PopThrows(old(State()))
    {
      ghost var e := State();
      ResetRedo();
      var compound := Compound(entries);
      actionFrameStarted := false;
      timeOfLastAdd := 0;
      ghost var closed := State();
      assert closed == UndoSpec.ResetRedo(e).(actionFrameStarted := false, timeOfLastAdd := 0);
      if |saved| == 0 {
        return true;
      }
      var parent := saved[|saved| - 1];
      assert parent.Valid();
      entries, cursor := parent.entries, parent.cursor;
      saved := saved[..|saved| - 1];
      assert State() == closed.(entries := parent.entries, cursor := parent.cursor, saved := e.saved[..|e.saved| - 1]);
      AddActor(compound, currentTime, onDispatchThread);
      thrown := false;
    }

    /** `thrown` is the NoSuchElementException of popping an empty transaction stack. */
    method Rollback() returns (thrown: bool)
      requires Valid()
      modifies this
      ensures Valid() && State() == UndoSpec.Rollback(old(State()))
      ensures thrown <==> PopThrows(old(State()))
    {
      undoActionRunning := true;
      while cursor > 0
        invariant cursor <= old(cursor)
        invariant entries == old(entries) && saved == old(saved) && deactivated == old(deactivated)
        invariant actionFrameStarted == old(actionFrameStarted) && timeOfLastAdd == old(timeOfLastAdd)
        invariant log == old(log) + UndoCalls(entries[cursor..old(cursor)])
        invariant undoActionRunning
        decreases cursor
      {
        cursor := cursor - 1;
        assert entries[cursor..old(cursor)][1..] == entries[cursor + 1..old(cursor)];
        Invoke(UndoCall(entries[cursor]));
      }
      undoActionRunning := false;
      assert entries[0..old(cursor)] == entries[..old(cursor)];
      if |saved| == 0 {
        return true;
      }
      var parent := saved[|saved| - 1];
      assert parent.Valid();
      entries, cursor := parent.entries, parent.cursor;
      saved := saved[..|saved| - 1];
      thrown := false;
    }
  }
}
