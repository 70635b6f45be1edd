/**
 * Properties of the undo engine that relate several operations: repeated undo
 * and redo, rollback as repeated undo, what a run of submissions leaves in the
 * history, and what a transaction leaves behind.
 */
module UndoProperties {
  import opened Wrappers
  import opened UndoSpec

  // ---------------------------------------------------------------------------
  // Repeated undo and redo
  // ---------------------------------------------------------------------------

  /** `n` successive calls of undo(). */
  function UndoTimes(e: Engine, n: nat): (r: Engine)
    requires e.Valid()
    ensures r.Valid() && r.entries == e.entries && r.saved == e.saved
    decreases n
  {
    if n == 0 then e else UndoTimes(Undo(e), n - 1)
  }

  /** `n` successive calls of redo(). */
  function RedoTimes(e: Engine, n: nat): (r: Engine)
    requires e.Valid()
    ensures r.Valid() && r.entries == e.entries && r.saved == e.saved
    decreases n
  {
    if n == 0 then e else RedoTimes(Redo(e), n - 1)
  }

  function Min(a: nat, b: nat): nat {
    if a <= b then a else b
  }

  lemma {:induction false} UndoCallsSnoc(s: seq<Actor>, a: Actor)
    ensures UndoCalls(s + [a]) == [UndoCall(a)] + UndoCalls(s)
    decreases |s|
  {
    if s != [] {
      assert (s + [a])[1..] == s[1..] + [a];
      UndoCallsSnoc(s[1..], a);
    }
  }

  lemma {:induction false} ActCallsCons(a: Actor, s: seq<Actor>)
    ensures ActCalls([a] + s) == [ActCall(a)] + ActCalls(s)
  {
    assert ([a] + s)[1..] == s;
  }

  lemma SliceSnoc(s: seq<Actor>, lo: nat, hi: nat)
    requires lo < hi <= |s|
    ensures s[lo..hi] == s[lo..hi - 1] + [s[hi - 1]]
  {
  }

  /** Undoing `n` times walks the cursor back by `n`, stopping at 0; the list is untouched. */
  lemma {:induction false} UndoTimesCursor(e: Engine, n: nat)
    requires e.Valid()
    ensures UndoTimes(e, n).cursor == e.cursor - Min(n, e.cursor)
    ensures n >= e.cursor ==> !UndoTimes(e, n).CanUndo()
    decreases n
  {
    if n > 0 {
      UndoTimesCursor(Undo(e), n - 1);
    }
  }

  /** One undo followed by `n` more logs the undo of the entry before the cursor first. */
  lemma UndoTimesLogStep(e: Engine, n: nat, s: seq<Actor>)
    requires e.Valid() && e.cursor > 0
    requires UndoTimes(Undo(e), n).log == Undo(e).log + UndoCalls(s)
    ensures UndoTimes(e, n + 1).log == e.log + UndoCalls(s + [e.entries[e.cursor - 1]])
  {
    var x := e.entries[e.cursor - 1];
    UndoCallsSnoc(s, x);
    calc {
      UndoTimes(e, n + 1).log;
      UndoTimes(Undo(e), n).log;
      (e.log + [UndoCall(x)]) + UndoCalls(s);
      e.log + ([UndoCall(x)] + UndoCalls(s));
    }
  }

  /** Undoing `n` times undoes the entries the cursor passes, the most recent first. */
  lemma {:induction false} UndoTimesLog(e: Engine, n: nat)
    requires e.Valid()
    ensures UndoTimes(e, n).log == e.log + UndoCalls(e.entries[e.cursor - Min(n, e.cursor)..e.cursor])
    decreases n
  {
    var lo := e.cursor - Min(n, e.cursor);
    if n == 0 {
      assert e.entries[lo..e.cursor] == [];
      assert UndoCalls([]) == [];
    } else if e.cursor == 0 {
      assert Undo(e) == e;
      UndoTimesLog(e, n - 1);
    } else {
      var u := Undo(e);
      UndoTimesLog(u, n - 1);
      assert u.cursor - Min(n - 1, u.cursor) == lo;
      UndoTimesLogStep(e, n - 1, e.entries[lo..u.cursor]);
      SliceSnoc(e.entries, lo, e.cursor);
    }
  }

  /**
   * Undoing `n` times walks the cursor back by `n` (stopping at 0) and undoes
   * the entries it passes, the most recent first; the list itself is untouched.
   */
  lemma UndoTimesWalksBack(e: Engine, n: nat)
    requires e.Valid()
    ensures UndoTimes(e, n).cursor == e.cursor - Min(n, e.cursor)
    ensures UndoTimes(e, n).log == e.log + UndoCalls(e.entries[e.cursor - Min(n, e.cursor)..e.cursor])
    ensures n >= e.cursor ==> !UndoTimes(e, n).CanUndo()
  {
    UndoTimesCursor(e, n);
    UndoTimesLog(e, n);
  }

  /** One redo followed by `n - 1` more logs the act of the entry at the cursor first. */
  lemma RedoTimesLogStep(e: Engine, n: nat, s: seq<Actor>)
    requires e.Valid() && e.cursor < |e.entries| && n > 0
    requires RedoTimes(Redo(e), n - 1).log == Redo(e).log + ActCalls(s)
    ensures RedoTimes(e, n).log == e.log + ActCalls([e.entries[e.cursor]] + s)
  {
    var x := e.entries[e.cursor];
    ActCallsCons(x, s);
    calc {
      RedoTimes(e, n).log;
      RedoTimes(Redo(e), n - 1).log;
      (e.log + [ActCall(x)]) + ActCalls(s);
      e.log + ([ActCall(x)] + ActCalls(s));
    }
  }

  /** Redoing `n` times walks the cursor forward over `n` undone entries, acting each in order. */
  lemma {:induction false} RedoTimesWalksForward(e: Engine, n: nat)
    requires e.Valid() && e.cursor + n <= |e.entries|
    ensures RedoTimes(e, n).cursor == e.cursor + n
    ensures RedoTimes(e, n).log == e.log + ActCalls(e.entries[e.cursor..e.cursor + n])
    decreases n
  {
    if n == 0 {
      assert e.entries[e.cursor..e.cursor] == [];
      assert ActCalls([]) == [];
    } else {
      var d := Redo(e);
      RedoTimesWalksForward(d, n - 1);
      var rest := e.entries[e.cursor + 1..e.cursor + n];
      RedoTimesLogStep(e, n, rest);
      assert e.entries[e.cursor..e.cursor + n] == [e.entries[e.cursor]] + rest;
    }
  }

  /**
   * Undo followed by redo is a round trip: after `n <= cursor` undos and `n`
   * redos the list and cursor are back, and the actors saw the `n` undos
   * (newest first) followed by the `n` acts (oldest first).
   */
  lemma UndoRedoRoundTrip(e: Engine, n: nat)
    requires e.Valid() && n <= e.cursor
    ensures RedoTimes(UndoTimes(e, n), n).entries == e.entries
    ensures RedoTimes(UndoTimes(e, n), n).cursor == e.cursor
    ensures RedoTimes(UndoTimes(e, n), n).log ==
              e.log + UndoCalls(e.entries[e.cursor - n..e.cursor]) + ActCalls(e.entries[e.cursor - n..e.cursor])
  {
    var passed := e.entries[e.cursor - n..e.cursor];
    var u := UndoTimes(e, n);
    UndoTimesWalksBack(e, n);
    assert Min(n, e.cursor) == n;
    assert u.cursor == e.cursor - n && u.log == e.log + UndoCalls(passed);
    RedoTimesWalksForward(u, n);
    assert u.entries[u.cursor..u.cursor + n] == passed;
  }

  /** Rollback issues exactly the calls of undoing every applied entry one by one. */
  lemma RollbackIsRepeatedUndo(e: Engine)
    requires e.Valid()
    ensures Rollback(e).log == UndoTimes(e, e.cursor).log
  {
    UndoTimesWalksBack(e, e.cursor);
  }

  // ---------------------------------------------------------------------------
  // Runs of submissions
  // ---------------------------------------------------------------------------

  /** Cutting a list, or a suffix of it that is still long enough, keeps the same entries. */
  lemma EvictSuffix(x: seq<Actor>, k: nat)
    requires k + MAX_ENTRIES <= |x|
    ensures Evict(x[k..]) == Evict(x)
  {
    assert x[k..][|x| - k - MAX_ENTRIES..] == x[|x| - MAX_ENTRIES..];
  }

  /** Keeping the newest MAX_ENTRIES entries once or twice comes to the same. */
  lemma EvictAppend(s: seq<Actor>, t: seq<Actor>)
    ensures Evict(Evict(s) + t) == Evict(s + t)
  {
    if |s| > MAX_ENTRIES {
      var k := |s| - MAX_ENTRIES;
      assert Evict(s) + t == (s + t)[k..];
      EvictSuffix(s + t, k);
    }
  }

  /** Every submission comes at least TIME_TO_BEGIN_NEW_ACTION after the previous one. */
  predicate Spaced(start: int, times: seq<int>)
    decreases |times|
  {
    times != [] ==> times[0] - start >= TIME_TO_BEGIN_NEW_ACTION && Spaced(times[0], times[1..])
  }

  /** Submitting `actors[k]` at `times[k]`, each in its own event-queue turn. */
  function SubmitSeparately(e: Engine, actors: seq<Actor>, times: seq<int>, onDispatchThread: bool): (r: Engine)
    requires e.Valid() && |times| == |actors|
    ensures r.Valid()
    decreases |actors|
  {
    if actors == [] then e
    else SubmitSeparately(EndOfTurn(AddActor(e, actors[0], times[0], onDispatchThread)), actors[1..], times[1..], onDispatchThread)
  }

  /** One spaced submission in its own turn appends, and leaves the frame closed. */
  lemma SpacedStep(e: Engine, a: Actor, t: int, onDispatchThread: bool)
    requires e.Valid() && !e.deactivated && !e.actionFrameStarted
    requires t - e.timeOfLastAdd >= TIME_TO_BEGIN_NEW_ACTION
    ensures
      var f := EndOfTurn(AddActor(e, a, t, onDispatchThread));
      && f.Valid()
      && f.entries == Evict(e.entries[..e.cursor] + [a])
      && f.cursor == |f.entries|
      && !f.deactivated && !f.actionFrameStarted && f.timeOfLastAdd == t
  {
  }

  /**
   * Submissions spaced beyond the coalescing window each become their own entry:
   * the list ends as the applied entries plus the new actors, cut to the newest
   * MAX_ENTRIES, and nothing is left to redo.
   */
  lemma {:induction false} SeparateSubmissionsAppend(e: Engine, actors: seq<Actor>, times: seq<int>, onDispatchThread: bool)
    requires e.Valid() && |times| == |actors| > 0
    requires !e.deactivated && !e.actionFrameStarted && Spaced(e.timeOfLastAdd, times)
    ensures SubmitSeparately(e, actors, times, onDispatchThread).entries == Evict(e.entries[..e.cursor] + actors)
    ensures SubmitSeparately(e, actors, times, onDispatchThread).cursor == |Evict(e.entries[..e.cursor] + actors)|
    decreases |actors|
  {
    var f := EndOfTurn(AddActor(e, actors[0], times[0], onDispatchThread));
    SpacedStep(e, actors[0], times[0], onDispatchThread);
    if |actors| > 1 {
      SeparateSubmissionsAppend(f, actors[1..], times[1..], onDispatchThread);
      assert f.entries[..f.cursor] == f.entries;
      EvictTwice(e.entries[..e.cursor], actors);
    } else {
      assert actors == [actors[0]];
    }
  }

  /** Appending the first actor, cutting, then appending the rest and cutting again is one cut. */
  lemma EvictTwice(applied: seq<Actor>, actors: seq<Actor>)
    requires |actors| > 1
    ensures Evict(Evict(applied + [actors[0]]) + actors[1..]) == Evict(applied + actors)
  {
    EvictAppend(applied + [actors[0]], actors[1..]);
    assert applied + [actors[0]] + actors[1..] == applied + actors;
  }

  /** From a fresh engine, up to MAX_ENTRIES spaced submissions give one entry each. */
  lemma SpacedSubmissionsFromFreshEngine(actors: seq<Actor>, times: seq<int>, onDispatchThread: bool)
    requires |times| == |actors| > 0 && Spaced(0, times)
    ensures |actors| <= MAX_ENTRIES ==> SubmitSeparately(Initial(), actors, times, onDispatchThread).entries == actors
    ensures |actors| > MAX_ENTRIES ==>
              SubmitSeparately(Initial(), actors, times, onDispatchThread).entries == actors[|actors| - MAX_ENTRIES..]
    ensures SubmitSeparately(Initial(), actors, times, onDispatchThread).CanUndo()
    ensures !SubmitSeparately(Initial(), actors, times, onDispatchThread).CanRedo()
  {
    SeparateSubmissionsAppend(Initial(), actors, times, onDispatchThread);
    assert Initial().entries[..0] + actors == actors;
  }

  /** Submitting all of `actors` at the same instant within one event-queue turn. */
  function SubmitInOneTurn(e: Engine, actors: seq<Actor>, currentTime: int, onDispatchThread: bool): (r: Engine)
    requires e.Valid()
    ensures r.Valid()
    decreases |actors|
  {
    if actors == [] then e
    else AddActor(SubmitInOneTurn(e, actors[..|actors| - 1], currentTime, onDispatchThread), actors[|actors| - 1], currentTime, onDispatchThread)
  }

  /** The entry that a burst of actors folds into. */
  function Folded(actors: seq<Actor>): (a: Actor)
    requires |actors| > 0
    decreases |actors|
  {
    if |actors| == 1 then actors[0] else Merge(Folded(actors[..|actors| - 1]), actors[|actors| - 1])
  }

  /** A burst whose first actor is a plain one folds into one compound of all of them, in order. */
  lemma {:induction false} FoldedLeading(actors: seq<Actor>)
    requires |actors| >= 2 && !actors[0].Compound?
    ensures Folded(actors) == Compound(actors)
    decreases |actors|
  {
    var init := actors[..|actors| - 1];
    if |actors| > 2 {
      FoldedLeading(init);
    }
    assert init + [actors[|actors| - 1]] == actors;
  }

  /**
   * A burst submitted at one instant after the applied entries were undone (or
   * on an empty history) becomes a single entry holding every actor.
   */
  lemma {:induction false} BurstFoldsIntoOneEntry(e: Engine, actors: seq<Actor>, currentTime: int, onDispatchThread: bool)
    requires e.Valid() && e.cursor == 0 && !e.deactivated && |actors| > 0
    ensures SubmitInOneTurn(e, actors, currentTime, onDispatchThread).entries == [Folded(actors)]
    ensures SubmitInOneTurn(e, actors, currentTime, onDispatchThread).cursor == 1
    ensures SubmitInOneTurn(e, actors, currentTime, onDispatchThread).timeOfLastAdd == currentTime
    ensures !SubmitInOneTurn(e, actors, currentTime, onDispatchThread).deactivated
    decreases |actors|
  {
    var init := actors[..|actors| - 1];
    if |actors| == 1 {
      assert init == [];
      BurstOpens(SubmitInOneTurn(e, init, currentTime, onDispatchThread), actors[0], currentTime, onDispatchThread);
    } else {
      BurstFoldsIntoOneEntry(e, init, currentTime, onDispatchThread);
      BurstContinues(SubmitInOneTurn(e, init, currentTime, onDispatchThread), actors[|actors| - 1], currentTime, onDispatchThread);
    }
  }

  /** The first actor of a burst, with nothing applied, becomes the only entry. */
  lemma BurstOpens(e: Engine, a: Actor, currentTime: int, onDispatchThread: bool)
    requires e.Valid() && e.cursor == 0 && !e.deactivated
    ensures
      var r := AddActor(e, a, currentTime, onDispatchThread);
      r.entries == [a] && r.cursor == 1 && r.timeOfLastAdd == currentTime && !r.deactivated
  {
    assert e.entries[..0] + [a] == [a];
  }

  /** A later actor of the burst, at the same instant, folds into that one entry. */
  lemma BurstContinues(f: Engine, a: Actor, currentTime: int, onDispatchThread: bool)
    requires f.Valid() && |f.entries| == 1 && f.cursor == 1 && f.timeOfLastAdd == currentTime && !f.deactivated
    ensures
      var r := AddActor(f, a, currentTime, onDispatchThread);
      r.entries == [Merge(f.entries[0], a)] && r.cursor == 1 && r.timeOfLastAdd == currentTime && !r.deactivated
  {
    assert Coalesces(ResetRedo(f), currentTime);
  }

  // ---------------------------------------------------------------------------
  // Transactions
  // ---------------------------------------------------------------------------

  /** What a caller can do inside an open transaction without opening another. */
  datatype Step =
    | Submit(actor: Actor, currentTime: int, onDispatchThread: bool)
    | StepUndo
    | StepRedo
    | StepDeactivate(onDispatchThread: bool)
    | StepEndOfTurn

  function Run(e: Engine, steps: seq<Step>): (r: Engine)
    requires e.Valid()
    ensures r.Valid()
    decreases |steps|
  {
    if steps == [] then e
    else
      var f :=
        match steps[0]
        case Submit(a, t, d) => AddActor(e, a, t, d)
        case StepUndo => Undo(e)
        case StepRedo => Redo(e)
        case StepDeactivate(d) => Deactivate(e, d)
        case StepEndOfTurn => EndOfTurn(e);
      Run(f, steps[1..])
  }

  /** None of those steps touches the saved lists. */
  lemma {:induction false} RunKeepsSaved(e: Engine, steps: seq<Step>)
    requires e.Valid()
    ensures Run(e, steps).saved == e.saved
    decreases |steps|
  {
    if steps != [] {
      var f :=
        match steps[0]
        case Submit(a, t, d) => AddActor(e, a, t, d)
        case StepUndo => Undo(e)
        case StepRedo => Redo(e)
        case StepDeactivate(d) => Deactivate(e, d)
        case StepEndOfTurn => EndOfTurn(e);
      RunKeepsSaved(f, steps[1..]);
    }
  }

  /**
   * startTransaction, any steps, rollback: the list, cursor and stack are those
   * from before the transaction, and every entry still applied inside it was
   * undone, the most recent first.
   */
  lemma TransactionRollbackRestores(e: Engine, steps: seq<Step>)
    requires e.Valid()
    ensures Rollback(Run(StartTransaction(e), steps)).entries == e.entries
    ensures Rollback(Run(StartTransaction(e), steps)).cursor == e.cursor
    ensures Rollback(Run(StartTransaction(e), steps)).saved == e.saved
    ensures Rollback(Run(StartTransaction(e), steps)).log ==
              Run(StartTransaction(e), steps).log +
              UndoCalls(Run(StartTransaction(e), steps).entries[..Run(StartTransaction(e), steps).cursor])
  {
    RunKeepsSaved(StartTransaction(e), steps);
    var s := e.saved + [Frame(e.entries, e.cursor)];
    assert s[..|s| - 1] == e.saved;
  }

  /**
   * startTransaction, any steps, commit well after the epoch: the parent list
   * keeps its applied entries and gains one new compound of the transaction's
   * applied entries; it is never folded into the parent's last entry.
   */
  lemma TransactionCommitAppends(e: Engine, steps: seq<Step>, currentTime: int, onDispatchThread: bool)
    requires e.Valid() && currentTime > TIME_TO_BEGIN_NEW_ACTION
    ensures
      var inner := Run(StartTransaction(e), steps);
      var r := Commit(inner, currentTime, onDispatchThread);
      && r.entries == Evict(e.entries[..e.cursor] + [Compound(inner.entries[..inner.cursor])])
      && r.cursor == |r.entries|
      && r.saved == e.saved
  {
    var inner := Run(StartTransaction(e), steps);
    RunKeepsSaved(StartTransaction(e), steps);
    var s := e.saved + [Frame(e.entries, e.cursor)];
    assert s[..|s| - 1] == e.saved;
  }

  /**
   * A transaction nested in another: the inner commit adds one compound to the
   * outer transaction's list, and the outer commit then adds one compound of
   * everything applied there to the original list.
   */
  lemma NestedCommitsAppendOneEntry(e: Engine, outer: seq<Step>, inner: seq<Step>, t1: int, t2: int, onDispatchThread: bool)
    requires e.Valid() && t1 > TIME_TO_BEGIN_NEW_ACTION && t2 > TIME_TO_BEGIN_NEW_ACTION
    ensures
      var mid := Run(StartTransaction(e), outer);
      var body := Run(StartTransaction(mid), inner);
      var c1 := Commit(body, t1, onDispatchThread);
      var r := Commit(c1, t2, onDispatchThread);
      && c1.entries == Evict(mid.entries[..mid.cursor] + [Compound(body.entries[..body.cursor])])
      && r.entries == Evict(e.entries[..e.cursor] + [Compound(c1.entries)])
      && r.cursor == |r.entries|
      && r.saved == e.saved
  {
    var mid := Run(StartTransaction(e), outer);
    RunKeepsSaved(StartTransaction(e), outer);
    var body := Run(StartTransaction(mid), inner);
    RunKeepsSaved(StartTransaction(mid), inner);
    var s1 := mid.saved + [Frame(mid.entries, mid.cursor)];
    assert s1[..|s1| - 1] == mid.saved;
    var c1 := Commit(body, t1, onDispatchThread);
    assert c1.entries[..c1.cursor] == c1.entries;
    var s0 := e.saved + [Frame(e.entries, e.cursor)];
    assert s0[..|s0| - 1] == e.saved;
  }
}
