/** The undo history of ui/cryptomaterial/editor.go. */
module EditorHistories {
  import opened Basics

  const HISTORY_LIMIT: nat := 64

  datatype Snapshot = Snapshot(text: string, selStart: int, selEnd: int)

  datatype History = History(undoStack: seq<Snapshot>, current: Snapshot, redoStack: seq<Snapshot>)

  function LastOf<T>(s: seq<T>, n: nat): seq<T> {
    if |s| > n then s[|s| - n..] else s
  }

  /** pushHistory: `before` is what the editor held before its text changed. */
  function Push(h: History, before: Snapshot): History {
    if before.text == h.current.text then
      h
    else
      History(LastOf(h.undoStack + [before], HISTORY_LIMIT), h.current, [])
  }

  function Undo(h: History): History {
    if h.undoStack == [] then h else History(Front(h.undoStack), Last(h.undoStack), h.redoStack + [h.current])
  }

  function Redo(h: History): History {
    if h.redoStack == [] then h else History(h.undoStack + [h.current], Last(h.redoStack), Front(h.redoStack))
  }

  // ---------------------------------------------------------------- the timeline

  function Reversed<T>(s: seq<T>): seq<T> {
    if s == [] then [] else [Last(s)] + Reversed(Front(s))
  }

  /** All states that undo and redo can reach, oldest first; the current one is at |undoStack|. */
  function Timeline(h: History): seq<Snapshot> {
    h.undoStack + [h.current] + Reversed(h.redoStack)
  }

  lemma {:induction false} ReversedSnoc<T>(s: seq<T>, x: T)
    ensures Reversed(s + [x]) == [x] + Reversed(s) && |Reversed(s)| == |s|
  {
    assert Front(s + [x]) == s;
    if s != [] {
      ReversedSnoc(Front(s), Last(s));
      assert Front(s) + [Last(s)] == s;
    }
  }

  /** Undo goes one step back on the timeline, Redo one step forward, and neither changes it. */
  lemma MovesKeepTimeline(h: History)
    ensures Timeline(Undo(h)) == Timeline(h) && Timeline(Redo(h)) == Timeline(h)
    ensures |Undo(h).undoStack| == if h.undoStack == [] then 0 else |h.undoStack| - 1
    ensures |Redo(h).undoStack| == if h.redoStack == [] then |h.undoStack| else |h.undoStack| + 1
    ensures Timeline(h)[|h.undoStack|] == h.current
  {
    if h.undoStack != [] {
      ReversedSnoc(h.redoStack, h.current);
      assert h.undoStack == Front(h.undoStack) + [Last(h.undoStack)];
    }
  }

  /** Undo and Redo are mutually inverse on the text, the selection and both stacks. */
  lemma UndoRedoInverse(h: History)
    ensures h.undoStack != [] ==> Redo(Undo(h)) == h
    ensures h.redoStack != [] ==> Undo(Redo(h)) == h
  {
    if h.undoStack != [] {
      assert Front(h.undoStack) + [Last(h.undoStack)] == h.undoStack;
      assert Front(h.redoStack + [h.current]) == h.redoStack;
    }
    if h.redoStack != [] {
      assert Front(h.redoStack) + [Last(h.redoStack)] == h.redoStack;
      assert Front(h.undoStack + [h.current]) == h.undoStack;
    }
  }

  datatype Move = Back | Forth

  function Moved(h: History, moves: seq<Move>): History {
    if moves == [] then h
    else
      var before := Moved(h, Front(moves));
      if Last(moves) == Back then Undo(before) else Redo(before)
  }

  /** Where a series of moves ends on a timeline of `n` states: the ends stop it. */
  function Position(at: nat, n: nat, moves: seq<Move>): nat {
    if moves == [] then at
    else
      var before := Position(at, n, Front(moves));
      if Last(moves) == Back then (if before == 0 then 0 else before - 1)
      else if before + 1 < n then before + 1 else before
  }

  /** However undo and redo alternate, the editor shows the state of one fixed timeline at the position
      the moves lead to. */
  lemma {:induction false} MovesFollowTimeline(h: History, moves: seq<Move>)
    ensures Timeline(Moved(h, moves)) == Timeline(h)
    ensures var at := Position(|h.undoStack|, |Timeline(h)|, moves);
            && at < |Timeline(h)| && |Moved(h, moves).undoStack| == at
            && Moved(h, moves).current == Timeline(h)[at]
    decreases |moves|
  {
    hide Timeline, Undo, Redo;
    if moves == [] {
      MovesKeepTimeline(h);
      TimelineLength(h);
    } else {
      MovesFollowTimeline(h, Front(moves));
      var before := Moved(h, Front(moves));
      MovesKeepTimeline(before);
      MovesKeepTimeline(Moved(h, moves));
      TimelineLength(before);
    }
  }

  lemma TimelineLength(h: History)
    ensures |Timeline(h)| == |h.undoStack| + 1 + |h.redoStack|
  {
    ReversedSnoc(h.redoStack, h.current);
  }

  /** A change that leaves the text alone leaves the history alone, and so what can be undone and redone. */
  lemma SameTextKeepsTimeline(h: History, before: Snapshot)
    requires before.text == h.current.text
    ensures Timeline(Push(h, before)) == Timeline(h) && Undo(Push(h, before)) == Undo(h)
    ensures Redo(Push(h, before)) == Redo(h)
  {
  }

  /** A change of text forgets what could be redone and can itself be undone. */
  lemma EditDiscardsFuture(h: History, before: Snapshot)
    requires before.text != h.current.text
    ensures Push(h, before).redoStack == [] && Undo(Push(h, before)).current == before
    ensures Timeline(Push(h, before)) == LastOf(h.undoStack + [before], HISTORY_LIMIT) + [h.current]
  {
    assert Last(LastOf(h.undoStack + [before], HISTORY_LIMIT)) == before;
  }

  // ---------------------------------------------------------------- typing and undoing

  /** The contents `contents`, each typed over the one before. */
  function Typed(h: History, contents: seq<Snapshot>): History {
    if contents == [] then
      h
    else
      var before := Typed(h, Front(contents));
      Push(before.(current := Last(contents)), before.current)
  }

  function Undone(h: History, k: nat): History {
    if k == 0 then h else Undo(Undone(h, k - 1))
  }

  predicate TextsChange(contents: seq<Snapshot>) {
    forall i :: 0 < i < |contents| ==> contents[i - 1].text != contents[i].text
  }

  lemma {:induction false} TypedIsKept(h: History, contents: seq<Snapshot>)
    requires contents != [] && TextsChange([h.current] + contents)
    ensures var all := h.undoStack + ([h.current] + contents);
            Typed(h, contents) == History(LastOf(Front(all), HISTORY_LIMIT), Last(all), [])
    decreases |contents|
  {
    var all := h.undoStack + ([h.current] + contents);
    var init := Front(contents);
    assert all == Front(all) + [Last(contents)] && ([h.current] + contents)[|contents|] == Last(contents);
    if init == [] {
      assert ([h.current] + contents)[0] == h.current && Front(all) == h.undoStack + [h.current];
      assert Typed(h, init) == h;
    } else {
      var before := h.undoStack + ([h.current] + init);
      assert Front(all) == before && before == Front(before) + [Last(before)];
      assert ([h.current] + contents)[|init|] == Last(init) == Last(before);
      assert forall i :: 0 <= i <= |init| ==> ([h.current] + init)[i] == ([h.current] + contents)[i];
      TypedIsKept(h, init);
      LastOfSnoc(Front(before), Last(before), HISTORY_LIMIT);
    }
  }

  lemma LastOfSnoc<T>(s: seq<T>, x: T, n: nat)
    requires 0 < n
    ensures LastOf(LastOf(s, n) + [x], n) == LastOf(s + [x], n)
  {
  }

  lemma {:induction false} UndoneIs(h: History, k: nat)
    ensures var u, n := h.undoStack, if k < |h.undoStack| then k else |h.undoStack|;
            Undone(h, k).undoStack == u[..|u| - n] && Undone(h, k).current == (u + [h.current])[|u| - n]
  {
    if k > 0 {
      UndoneIs(h, k - 1);
    }
  }

  /** After any edits, undoing shows the contents before them, newest first, as far back as the limit. */
  lemma UndoGivesBack(h: History, contents: seq<Snapshot>, k: nat)
    requires contents != [] && TextsChange([h.current] + contents)
    ensures var all := h.undoStack + ([h.current] + contents);
            var back := Min(k, Min(HISTORY_LIMIT, |all| - 1));
            Undone(Typed(h, contents), k).current == all[|all| - 1 - back]
  {
    TypedIsKept(h, contents);
    UndoneIs(Typed(h, contents), k);
  }

  // ---------------------------------------------------------------- whole runs

  /** What happens to an editor: its content becomes `now` and pushHistory runs with `before`, or its
      content becomes `now` behind the history's back, or a move. */
  datatype Op =
    | Edit(before: Snapshot, now: Snapshot)
    | SetContent(now: Snapshot)
    | DoUndo
    | DoRedo

  function Apply(h: History, op: Op): History {
    match op
    case Edit(before, now) => Push(h.(current := now), before)
    case SetContent(now) => h.(current := now)
    case DoUndo => Undo(h)
    case DoRedo => Redo(h)
  }

  function Run(start: Snapshot, ops: seq<Op>): History {
    if ops == [] then History([], start, []) else Apply(Run(start, Front(ops)), Last(ops))
  }

  /** The two stacks together never hold more than the limit, although only edits trim. */
  lemma {:induction false} StacksStayBounded(start: Snapshot, ops: seq<Op>)
    ensures |Run(start, ops).undoStack| + |Run(start, ops).redoStack| <= HISTORY_LIMIT
    decreases |ops|
  {
    if ops != [] {
      StacksStayBounded(start, Front(ops));
    }
  }

  // ---------------------------------------------------------------- the object

  class Editor {
    var text: string
    var selStart: int
    var selEnd: int
    var undoStack: seq<Snapshot>
    var redoStack: seq<Snapshot>
    var applyingHistory: bool

    ghost function State(): History
      reads this
    {
      History(undoStack, Snapshot(text, selStart, selEnd), redoStack)
    }

    constructor (start: Snapshot)
      ensures State() == History([], start, []) && !applyingHistory
    {
      text, selStart, selEnd := start.text, start.selStart, start.selEnd;
      undoStack, redoStack, applyingHistory := [], [], false;
    }

    method TakeSnapshot() returns (s: Snapshot)
      ensures s == State().current
    {
      s := Snapshot(text, selStart, selEnd);
    }

    method PushHistory(before: Snapshot)
      modifies this
      ensures State() == if old(applyingHistory) then old(State()) else Push(old(State()), before)
      ensures applyingHistory == old(applyingHistory)
    {
      if applyingHistory || before.text == text {
        return;
      }
      undoStack := undoStack + [before];
      if |undoStack| > HISTORY_LIMIT {
        undoStack := undoStack[|undoStack| - HISTORY_LIMIT..];
      }
      redoStack := [];
    }

    method UndoEdit()
      modifies this
      ensures State() == Undo(old(State()))
    {
      if |undoStack| == 0 {
        return;
      }
      var here := TakeSnapshot();
      redoStack := redoStack + [here];
      var snap := undoStack[|undoStack| - 1];
      undoStack := undoStack[..|undoStack| - 1];
      Restore(snap);
    }

    method RedoEdit()
      modifies this
      ensures State() == Redo(old(State()))
    {
      if |redoStack| == 0 {
        return;
      }
      var here := TakeSnapshot();
      undoStack := undoStack + [here];
      var snap := redoStack[|redoStack| - 1];
      redoStack := redoStack[..|redoStack| - 1];
      Restore(snap);
    }

    method Restore(snap: Snapshot)
      modifies this
      ensures State() == old(State()).(current := snap) && !applyingHistory
    {
      applyingHistory := true;
      text := snap.text;
      selStart, selEnd := snap.selStart, snap.selEnd;
      applyingHistory := false;
    }
  }
}
