/**
 * The undo/redo engine of Freeplane as a value: a history list, a cursor that
 * separates applied entries from undone ones, a stack of saved (list, cursor)
 * pairs for nested transactions, and the coalescing state. Each public
 * operation of the engine is a function from the old state to the new one;
 * the calls the engine makes on actors are appended to `log`.
 */
module UndoSpec {
  import opened Wrappers

  /** Largest number of entries one history list keeps. */
  const MAX_ENTRIES: nat := 100
  /** Milliseconds after the last submission within which a new actor is folded into it. */
  const TIME_TO_BEGIN_NEW_ACTION: int := 100

  /** A reversible change; what it does to the document is left abstract. */
  datatype Actor = Leaf(id: nat) | Compound(children: seq<Actor>)

  /** A call the engine makes on an actor: `undo()` or `act()`. */
  datatype Call = UndoCall(actor: Actor) | ActCall(actor: Actor)

  /** A history list and its cursor, saved while a transaction is open. */
  datatype Frame = Frame(entries: seq<Actor>, cursor: nat)
  {
    predicate Valid() {
      cursor <= |entries| <= MAX_ENTRIES
    }
  }

  datatype Engine = Engine(
    entries: seq<Actor>,
    cursor: nat,
    saved: seq<Frame>,
    actionFrameStarted: bool,
    timeOfLastAdd: int,
    deactivated: bool,
    log: seq<Call>)
  {
    /** The cursor lies inside its list, and every list, open or saved, is bounded. */
    predicate Valid() {
      && cursor <= |entries| <= MAX_ENTRIES
      && forall k :: 0 <= k < |saved| ==> saved[k].Valid()
    }

    predicate CanUndo() {
      cursor > 0
    }

    predicate CanRedo() {
      cursor < |entries|
    }
  }

  /** The state of a freshly constructed engine. */
  function Initial(): (e: Engine)
    ensures e.Valid() && !e.CanUndo() && !e.CanRedo()
    ensures e.saved == [] && e.log == [] && !e.deactivated && !e.actionFrameStarted
  {
    Engine([], 0, [], false, 0, false, [])
  }

  // ---------------------------------------------------------------------------
  // Helpers of addActor
  // ---------------------------------------------------------------------------

  /** The actors an entry stands for once another actor is folded into it. */
  function Members(a: Actor): seq<Actor> {
    if a.Compound? then a.children else [a]
  }

  /**
   * Folding `a` into the entry `last`: a plain actor is first wrapped in a
   * compound, then `a` is appended to the compound.
   */
  function Merge(last: Actor, a: Actor): (c: Actor)
    ensures c.Compound? && |c.children| >= 1
    ensures c.children[..|c.children| - 1] == Members(last)
    ensures c.children[|c.children| - 1] == a
  {
    match last
    case Compound(cs) => Compound(cs + [a])
    case Leaf(_) => Compound([last, a])
  }

  /** Dropping the oldest entries until at most MAX_ENTRIES remain. */
  function Evict(s: seq<Actor>): (r: seq<Actor>)
    ensures |r| == (if |s| <= MAX_ENTRIES then |s| else MAX_ENTRIES)
    ensures r == s[|s| - |r|..]
  {
    if |s| <= MAX_ENTRIES then s else s[|s| - MAX_ENTRIES..]
  }

  /** While deactivated, a submission is dropped unless the frame is closed and the window has passed. */
  predicate Muted(e: Engine, currentTime: int) {
    e.deactivated && (e.actionFrameStarted || currentTime - e.timeOfLastAdd <= TIME_TO_BEGIN_NEW_ACTION)
  }

  /** A submission joins the last applied entry when the frame is open or it came soon after the last one. */
  predicate Coalesces(e: Engine, currentTime: int) {
    e.cursor > 0 && (e.actionFrameStarted || currentTime - e.timeOfLastAdd < TIME_TO_BEGIN_NEW_ACTION)
  }

  /** startActionFrame: the frame opens only when called on the dispatch thread. */
  function StartActionFrame(e: Engine, onDispatchThread: bool): (r: Engine)
    ensures r.actionFrameStarted <==> e.actionFrameStarted || onDispatchThread
    ensures r.(actionFrameStarted := e.actionFrameStarted) == e
  {
    if !e.actionFrameStarted && onDispatchThread then e.(actionFrameStarted := true) else e
  }

  // ---------------------------------------------------------------------------
  // Operations
  // ---------------------------------------------------------------------------

  /** resetRedo: every undone entry is discarded. */
  function ResetRedo(e: Engine): (r: Engine)
    requires e.Valid()
    ensures r.Valid() && !r.CanRedo()
    ensures r.entries == e.entries[..e.cursor] && r.cursor == e.cursor
    ensures r.(entries := e.entries) == e
  {
    e.(entries := e.entries[..e.cursor])
  }

  /** The merge branch of addActor: the last entry absorbs `a`, nothing else moves. */
  function FoldIntoLast(s: seq<Actor>, a: Actor): (r: seq<Actor>)
    requires |s| > 0
    ensures |r| == |s|
    ensures r[..|s| - 1] == s[..|s| - 1]
    ensures r[|s| - 1] == Merge(s[|s| - 1], a)
  {
    s[|s| - 1 := Merge(s[|s| - 1], a)]
  }

  /** The append branch of addActor: `a` becomes the newest entry and the oldest are evicted. */
  function AppendBounded(s: seq<Actor>, a: Actor): (r: seq<Actor>)
    ensures 0 < |r| <= MAX_ENTRIES
    ensures r[|r| - 1] == a
    ensures |s| < MAX_ENTRIES ==> r == s + [a]
    ensures |s| >= MAX_ENTRIES ==> r == s[|s| + 1 - MAX_ENTRIES..] + [a]
  {
    Evict(s + [a])
  }

  /** addActor past the muting check: fold or append, open the frame, stamp the time. */
  function Record(h: Engine, a: Actor, currentTime: int, onDispatchThread: bool): (r: Engine)
    requires h.Valid() && !h.CanRedo()
    ensures r.Valid() && !r.CanRedo()
    ensures r.saved == h.saved && r.log == h.log && r.deactivated == h.deactivated
    ensures r.timeOfLastAdd == currentTime
    ensures r.actionFrameStarted <==> h.actionFrameStarted || onDispatchThread
    ensures Coalesces(h, currentTime) ==> r.entries == FoldIntoLast(h.entries, a) && r.cursor == h.cursor
    ensures !Coalesces(h, currentTime) ==> r.entries == AppendBounded(h.entries, a) && r.cursor == |r.entries|
  {
    // the last applied entry is the one just before the cursor, which is the last of the list
    var s := if Coalesces(h, currentTime) then FoldIntoLast(h.entries, a) else AppendBounded(h.entries, a);
    StartActionFrame(h.(entries := s, cursor := |s|), onDispatchThread).(timeOfLastAdd := currentTime)
  }

  /** Record in two steps: extend the list, then open the frame and stamp the time. */
  lemma RecordSteps(h: Engine, a: Actor, currentTime: int, onDispatchThread: bool)
    requires h.Valid() && !h.CanRedo()
    ensures
      var s := if h.cursor > 0 && (h.actionFrameStarted || currentTime - h.timeOfLastAdd < TIME_TO_BEGIN_NEW_ACTION)
               then FoldIntoLast(h.entries, a) else AppendBounded(h.entries, a);
      Record(h, a, currentTime, onDispatchThread) ==
        StartActionFrame(h.(entries := s, cursor := |s|), onDispatchThread).(timeOfLastAdd := currentTime)
  {
  }

  /** addActor: record `a`, which the caller has already performed, at time `currentTime`. */
  function AddActor(e: Engine, a: Actor, currentTime: int, onDispatchThread: bool): (r: Engine)
    requires e.Valid()
    ensures r.Valid() && !r.CanRedo() && |r.entries| <= MAX_ENTRIES
    ensures r.saved == e.saved && r.log == e.log
    // muting: nothing is recorded, the whole list goes, the time stamp stays
    ensures Muted(e, currentTime) ==> r == e.(entries := [], cursor := 0)
    ensures !Muted(e, currentTime) ==>
              && !r.deactivated
              && r.timeOfLastAdd == currentTime
              && (r.actionFrameStarted <==> e.actionFrameStarted || onDispatchThread)
    // merge rule: the last applied entry absorbs `a`; length and cursor are unchanged
    ensures !Muted(e, currentTime) && Coalesces(e, currentTime) ==>
              && r.cursor == e.cursor
              && r.entries == FoldIntoLast(e.entries[..e.cursor], a)
    // append rule: `a` is the newest entry, the oldest are evicted, the cursor is at the end
    ensures !Muted(e, currentTime) && !Coalesces(e, currentTime) ==>
              && r.entries == AppendBounded(e.entries[..e.cursor], a)
              && r.cursor == |r.entries|
  {
    var h := ResetRedo(e);
    if Muted(h, currentTime) then
      if |h.entries| > 0 then h.(entries := [], cursor := 0) else h
    else
      Record(h.(deactivated := false), a, currentTime, onDispatchThread)
  }

  /** deactivate: mute recording and open the frame. */
  function Deactivate(e: Engine, onDispatchThread: bool): (r: Engine)
    ensures r.deactivated
    ensures r.actionFrameStarted <==> e.actionFrameStarted || onDispatchThread
    ensures r.(deactivated := e.deactivated, actionFrameStarted := e.actionFrameStarted) == e
  {
    StartActionFrame(e.(deactivated := true), onDispatchThread)
  }

  /** The deferred reset scheduled by startActionFrame, run at the end of the event-queue turn. */
  function EndOfTurn(e: Engine): (r: Engine)
    ensures !r.actionFrameStarted
    ensures r.(actionFrameStarted := e.actionFrameStarted) == e
  {
    e.(actionFrameStarted := false)
  }

  /** undo: nothing on an empty applied side; otherwise step back and undo exactly that entry. */
  function Undo(e: Engine): (r: Engine)
    requires e.Valid()
    ensures r.Valid()
    ensures r.entries == e.entries && r.saved == e.saved
    ensures r.actionFrameStarted == e.actionFrameStarted && r.timeOfLastAdd == e.timeOfLastAdd
    ensures r.deactivated == e.deactivated
    ensures !e.CanUndo() ==> r == e
    ensures e.CanUndo() ==>
              r.cursor + 1 == e.cursor && r.log == e.log + [UndoCall(e.entries[r.cursor])] && r.CanRedo()
  {
    if e.cursor > 0 then
      e.(cursor := e.cursor - 1, log := e.log + [UndoCall(e.entries[e.cursor - 1])])
    else
      e
  }

  /** redo: nothing on an empty undone side; otherwise act the entry at the cursor and step over it. */
  function Redo(e: Engine): (r: Engine)
    requires e.Valid()
    ensures r.Valid()
    ensures r.entries == e.entries && r.saved == e.saved
    ensures r.actionFrameStarted == e.actionFrameStarted && r.timeOfLastAdd == e.timeOfLastAdd
    ensures r.deactivated == e.deactivated
    ensures !e.CanRedo() ==> r == e
    ensures e.CanRedo() ==>
              r.cursor == e.cursor + 1 && r.log == e.log + [ActCall(e.entries[e.cursor])] && r.CanUndo()
  {
    if e.cursor < |e.entries| then
      e.(cursor := e.cursor + 1, log := e.log + [ActCall(e.entries[e.cursor])])
    else
      e
  }

  /** startTransaction: save the current list and cursor and open an empty list. */
  function StartTransaction(e: Engine): (r: Engine)
    requires e.Valid()
    ensures r.Valid() && !r.CanUndo() && !r.CanRedo()
    ensures r.saved == e.saved + [Frame(e.entries, e.cursor)]
    ensures r.(entries := e.entries, cursor := e.cursor, saved := e.saved) == e
  {
    e.(saved := e.saved + [Frame(e.entries, e.cursor)], entries := [], cursor := 0)
  }

  /** The calls `undo()` on the entries of `s`, the last entry first (see UndoCallsOrder). */
  function UndoCalls(s: seq<Actor>): (calls: seq<Call>)
    ensures |calls| == |s|
  {
    if s == [] then [] else UndoCalls(s[1..]) + [UndoCall(s[0])]
  }

  /** The calls `act()` on the entries of `s`, the first entry first (see ActCallsOrder). */
  function ActCalls(s: seq<Actor>): (calls: seq<Call>)
    ensures |calls| == |s|
  {
    if s == [] then [] else [ActCall(s[0])] + ActCalls(s[1..])
  }

  /** UndoCalls undoes every entry exactly once, in reverse order. */
  lemma {:induction false} UndoCallsOrder(s: seq<Actor>)
    ensures forall k :: 0 <= k < |s| ==> UndoCalls(s)[k] == UndoCall(s[|s| - 1 - k])
  {
    if s != [] {
      UndoCallsOrder(s[1..]);
      forall k | 0 <= k < |s| ensures UndoCalls(s)[k] == UndoCall(s[|s| - 1 - k]) {
        if k < |s| - 1 {
          assert UndoCalls(s)[k] == UndoCalls(s[1..])[k];
          assert s[1..][|s| - 2 - k] == s[|s| - 1 - k];
        }
      }
    }
  }

  /** ActCalls acts every entry exactly once, in order. */
  lemma {:induction false} ActCallsOrder(s: seq<Actor>)
    ensures forall k :: 0 <= k < |s| ==> ActCalls(s)[k] == ActCall(s[k])
  {
    if s != [] {
      ActCallsOrder(s[1..]);
      forall k | 0 < k < |s| ensures ActCalls(s)[k] == ActCall(s[k]) {
        assert ActCalls(s)[k] == ActCalls(s[1..])[k - 1];
      }
    }
  }

  /** commit and rollback pop the transaction stack; on an empty stack `removeLast` throws. */
  predicate PopThrows(e: Engine) {
    |e.saved| == 0
  }

  /**
   * rollback: undo every applied entry of the open list, most recent first, then
   * restore the saved list and cursor. On an empty stack the undos still happen and
   * the cursor stays at 0 when the exception is thrown.
   */
  function Rollback(e: Engine): (r: Engine)
    requires e.Valid()
    ensures r.Valid()
    ensures r.log == e.log + UndoCalls(e.entries[..e.cursor])
    ensures r.actionFrameStarted == e.actionFrameStarted && r.timeOfLastAdd == e.timeOfLastAdd
    ensures r.deactivated == e.deactivated
    ensures PopThrows(e) ==> r.entries == e.entries && r.cursor == 0 && r.saved == []
    ensures !PopThrows(e) ==>
              && Frame(r.entries, r.cursor) == e.saved[|e.saved| - 1]
              && r.saved == e.saved[..|e.saved| - 1]
  {
    var undone := e.(cursor := 0, log := e.log + UndoCalls(e.entries[..e.cursor]));
    if |e.saved| == 0 then
      undone
    else
      var top := e.saved[|e.saved| - 1];
      undone.(entries := top.entries, cursor := top.cursor, saved := e.saved[..|e.saved| - 1])
  }

  /**
   * commit: drop the undone entries, pack the applied ones into one compound,
   * close the frame and forget the time stamp, pop the saved list and cursor and
   * submit the compound to it through addActor. On an empty stack the exception
   * comes after the first three steps.
   */
  function Commit(e: Engine, currentTime: int, onDispatchThread: bool): (r: Engine)
    requires e.Valid()
    ensures r.Valid() && !r.CanRedo()
    ensures r.log == e.log
    ensures PopThrows(e) ==>
              r == e.(entries := e.entries[..e.cursor], actionFrameStarted := false, timeOfLastAdd := 0)
    ensures !PopThrows(e) ==> r.saved == e.saved[..|e.saved| - 1]
    // with the time stamp cleared, a commit after the epoch's first 100 ms appends one
    // compound of the applied entries to the parent's applied entries
    ensures !PopThrows(e) && currentTime > TIME_TO_BEGIN_NEW_ACTION ==>
              var top := e.saved[|e.saved| - 1];
              && r.entries == Evict(top.entries[..top.cursor] + [Compound(e.entries[..e.cursor])])
              && r.cursor == |r.entries|
  {
    assert |e.saved| > 0 ==> e.saved[|e.saved| - 1].Valid();
    var compound := Compound(e.entries[..e.cursor]);
    var closed := ResetRedo(e).(actionFrameStarted := false, timeOfLastAdd := 0);
    if |e.saved| == 0 then
      closed
    else
      var top := e.saved[|e.saved| - 1];
      var parent := closed.(entries := top.entries, cursor := top.cursor, saved := e.saved[..|e.saved| - 1]);
      AddActor(parent, compound, currentTime, onDispatchThread)
  }

  /** getLastDescription asks the LAST entry of the list, not the one before the cursor. */
  function LastDescribed(e: Engine): (d: Option<Actor>)
    requires e.Valid()
    ensures d.None? <==> !e.CanUndo()
    ensures d.Some? ==> d.value == e.entries[|e.entries| - 1]
  {
    if e.cursor > 0 then Some(e.entries[|e.entries| - 1]) else None
  }
}
