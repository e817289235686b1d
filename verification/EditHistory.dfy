// Undo, redo and drags as one timeline: what the history and future cells hold
// after any mix of edits.
module EditHistory {
  import opened WorkflowGraph

  const HISTORY_LIMIT: nat := 50

  datatype Editor = Editor(present: Graph, history: seq<Graph>, future: seq<Graph>, dragging: bool)

  // One atom applied to the cells. `Commit` records an undo step, `Amend` does
  // not, and `NodeChanges` is a batch of canvas changes of which a drag is made.
  datatype Step =
    | Commit(next: Graph)
    | Amend(next: Graph)
    | Undo
    | Redo
    | NodeChanges(dragFrame: bool, dragSettled: bool, nodes: seq<Node>)

  function LastOf<T>(s: seq<T>, n: nat): seq<T> {
    if |s| <= n then s else s[|s| - n..]
  }

  function Push(e: Editor): Editor {
    e.(history := LastOf(e.history + [e.present], HISTORY_LIMIT), future := [])
  }

  function Undone(e: Editor): Editor {
    if e.history == [] then e
    else e.(present := e.history[|e.history| - 1], history := e.history[..|e.history| - 1],
      future := e.future + [e.present])
  }

  function Redone(e: Editor): Editor {
    if e.future == [] then e
    else e.(present := e.future[|e.future| - 1], history := e.history + [e.present],
      future := e.future[..|e.future| - 1])
  }

  function Changed(e: Editor, dragFrame: bool, dragSettled: bool, nodes: seq<Node>): Editor {
    var pushed := if dragFrame && !e.dragging then Push(e).(dragging := true) else e;
    pushed.(dragging := pushed.dragging && !dragSettled, present := pushed.present.(nodes := nodes))
  }

  function Take(e: Editor, step: Step): Editor {
    match step
    case Commit(next) => Push(e).(present := next)
    case Amend(next) => e.(present := next)
    case Undo => Undone(e)
    case Redo => Redone(e)
    case NodeChanges(dragFrame, dragSettled, nodes) => Changed(e, dragFrame, dragSettled, nodes)
  }

  function Run(e: Editor, steps: seq<Step>): Editor
    decreases |steps|
  {
    if steps == [] then e else Run(Take(e, steps[0]), steps[1..])
  }

  // --- the bound ---

  predicate Bounded(e: Editor) {
    |e.history| + |e.future| <= HISTORY_LIMIT
  }

  // Redo appends to the history without cutting it, and the bound holds in
  // every reachable state all the same.
  lemma {:induction false} RunBounded(e: Editor, steps: seq<Step>)
    requires Bounded(e)
    ensures Bounded(Run(e, steps)) && |Run(e, steps).history| <= 50
    decreases |steps|
  {
    if steps != [] { RunBounded(Take(e, steps[0]), steps[1..]); }
  }

  // --- the timeline ---

  function Reverse<T>(s: seq<T>): seq<T> {
    if s == [] then [] else [s[|s| - 1]] + Reverse(s[..|s| - 1])
  }

  function Timeline(e: Editor): seq<Graph> {
    e.history + [e.present] + Reverse(e.future)
  }

  lemma {:induction false} ReverseLength<T>(s: seq<T>)
    ensures |Reverse(s)| == |s|
  {
    if s != [] { ReverseLength(s[..|s| - 1]); }
  }

  lemma {:induction false} ReverseInjective<T>(s: seq<T>, t: seq<T>)
    requires Reverse(s) == Reverse(t)
    ensures s == t
  {
    ReverseLength(s);
    ReverseLength(t);
    if s != [] {
      assert Reverse(s)[1..] == Reverse(s[..|s| - 1]) && Reverse(t)[1..] == Reverse(t[..|t| - 1]);
      ReverseInjective(s[..|s| - 1], t[..|t| - 1]);
      assert s == s[..|s| - 1] + [s[|s| - 1]] && t == t[..|t| - 1] + [t[|t| - 1]];
    }
  }

  // Undo and redo move a cursor along the timeline, stop at its ends, and
  // change nothing on it.
  lemma UndoMoves(e: Editor)
    ensures Timeline(Undone(e)) == Timeline(e)
    ensures |Undone(e).history| == if e.history == [] then 0 else |e.history| - 1
  {
  }

  lemma RedoMoves(e: Editor)
    ensures Timeline(Redone(e)) == Timeline(e)
    ensures |Redone(e).history| == if e.future == [] then |e.history| else |e.history| + 1
  {
  }

  predicate OnlyUndoRedo(steps: seq<Step>) {
    forall i | 0 <= i < |steps| :: steps[i].Undo? || steps[i].Redo?
  }

  lemma {:induction false} UndoRedoKeepTimeline(e: Editor, steps: seq<Step>)
    requires OnlyUndoRedo(steps)
    ensures Timeline(Run(e, steps)) == Timeline(e)
    ensures Run(e, steps).dragging == e.dragging
    decreases |steps|
  {
    if steps != [] {
      assert steps[0].Undo? || steps[0].Redo?;
      UndoMoves(e);
      RedoMoves(e);
      UndoRedoKeepTimeline(Take(e, steps[0]), steps[1..]);
    }
  }

  // The timeline and the cursor are the whole state.
  lemma TimelineDetermines(a: Editor, b: Editor)
    requires Timeline(a) == Timeline(b) && |a.history| == |b.history| && a.dragging == b.dragging
    ensures a == b
  {
    var t, n := Timeline(a), |a.history|;
    assert a.history == t[..n] && b.history == t[..n];
    assert a.present == t[n] && b.present == t[n];
    assert Reverse(a.future) == t[n + 1..] && Reverse(b.future) == t[n + 1..];
    ReverseInjective(a.future, b.future);
  }

  function Repeat(step: Step, k: nat): seq<Step> {
    seq(k, _ => step)
  }

  lemma {:induction false} UndosMove(e: Editor, k: nat)
    ensures |Run(e, Repeat(Undo, k)).history| == if k <= |e.history| then |e.history| - k else 0
    decreases k
  {
    if k > 0 {
      UndoMoves(e);
      assert Repeat(Undo, k)[1..] == Repeat(Undo, k - 1);
      UndosMove(Undone(e), k - 1);
    }
  }

  lemma {:induction false} RedosMove(e: Editor, k: nat)
    ensures |Run(e, Repeat(Redo, k)).history| == |e.history| + if k <= |e.future| then k else |e.future|
    decreases k
  {
    if k > 0 {
      RedoMoves(e);
      assert Repeat(Redo, k)[1..] == Repeat(Redo, k - 1);
      RedosMove(Redone(e), k - 1);
    }
  }

  lemma {:induction false} RunConcat(e: Editor, a: seq<Step>, b: seq<Step>)
    ensures Run(e, a + b) == Run(Run(e, a), b)
    decreases |a|
  {
    if a == [] {
      assert a + b == b;
    } else {
      assert (a + b)[1..] == a[1..] + b;
      RunConcat(Take(e, a[0]), a[1..], b);
    }
  }

  // k undos then k redos is the identity exactly when the undos had k steps to
  // take, or there was nothing to redo beyond the present.
  lemma UndosThenRedos(e: Editor, k: nat)
    ensures Run(e, Repeat(Undo, k) + Repeat(Redo, k)) == e <==> k <= |e.history| || e.future == []
  {
    var mid := Run(e, Repeat(Undo, k));
    var end := Run(mid, Repeat(Redo, k));
    RunConcat(e, Repeat(Undo, k), Repeat(Redo, k));
    UndosMove(e, k);
    RedosMove(mid, k);
    UndoRedoKeepTimeline(e, Repeat(Undo, k));
    UndoRedoKeepTimeline(mid, Repeat(Redo, k));
    ReverseLength(e.future);
    ReverseLength(mid.future);
    assert |Timeline(e)| == |e.history| + 1 + |e.future|;
    assert |Timeline(mid)| == |mid.history| + 1 + |mid.future|;
    if |end.history| == |e.history| { TimelineDetermines(end, e); }
  }

  // --- edits and drags ---

  // One undo takes back a committed edit and one redo puts it in again. Only
  // the oldest entry of a full history is lost.
  lemma CommitUndoRedo(e: Editor, next: Graph)
    requires Bounded(e)
    ensures var done := Take(e, Commit(next));
            && done.present == next && done.future == []
            && Undone(done).present == e.present
            && Undone(done).history == (if |e.history| < 50 then e.history else e.history[1..])
            && Redone(Undone(done)) == done
  {
    var grown := e.history + [e.present];
    if |grown| > HISTORY_LIMIT {
      assert LastOf(grown, HISTORY_LIMIT) == e.history[1..] + [e.present];
    }
  }

  // A batch of canvas changes: the nodes are the new ones, and a step back is
  // recorded exactly when it starts a drag.
  lemma BatchExact(e: Editor, dragFrame: bool, dragSettled: bool, nodes: seq<Node>)
    requires Bounded(e)
    ensures var after := Take(e, NodeChanges(dragFrame, dragSettled, nodes));
            && after.present == Graph(nodes, e.present.edges)
            && (after.dragging <==> (e.dragging || dragFrame) && !dragSettled)
            && if dragFrame && !e.dragging
               then after.future == [] && Undone(after).present == e.present
               else after.history == e.history && after.future == e.future
  {
  }

  function Frames(moves: seq<seq<Node>>): seq<Step> {
    seq(|moves|, i requires 0 <= i < |moves| => NodeChanges(true, false, moves[i]))
  }

  lemma {:induction false} FramesPushNothing(e: Editor, moves: seq<seq<Node>>)
    requires e.dragging
    ensures var after := Run(e, Frames(moves));
            after.dragging && after.history == e.history && after.future == e.future
              && after.present.edges == e.present.edges
    decreases |moves|
  {
    if moves != [] {
      assert Frames(moves)[1..] == Frames(moves[1..]);
      FramesPushNothing(Take(e, Frames(moves)[0]), moves[1..]);
    }
  }

  // A drag of any number of frames, then its settling, is one undo step back to
  // the graph before the drag.
  lemma DragIsOneStep(e: Editor, moves: seq<seq<Node>>, settled: seq<Node>)
    requires Bounded(e) && !e.dragging && moves != []
    ensures var after := Run(e, Frames(moves) + [NodeChanges(false, true, settled)]);
            && !after.dragging && after.present == e.present.(nodes := settled)
            && after.history == Push(e).history && after.future == []
            && Undone(after).present == e.present
  {
    var first := Take(e, NodeChanges(true, false, moves[0]));
    assert Frames(moves)[1..] == Frames(moves[1..]);
    FramesPushNothing(first, moves[1..]);
    var last := [NodeChanges(false, true, settled)];
    RunConcat(e, Frames(moves), last);
    var dragged := Run(e, Frames(moves));
    assert dragged == Run(first, Frames(moves[1..]));
    assert last[1..] == [];
    assert Run(dragged, last) == Take(dragged, last[0]);
    CommitUndoRedo(e, e.present);
  }
}
