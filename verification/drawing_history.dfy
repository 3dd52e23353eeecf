/** The drawing canvas's undo / redo history. A picture is an abstract
    snapshot `P` of the canvas; the history keeps the snapshots to go back
    to (`undo`, oldest first) and those to go forward to again (`redo`,
    most recently undone last), and at most `MaxUndoSteps` are kept when a
    new one is saved. */
module DrawingHistory {
  import opened Wrappers

  const MaxUndoSteps := 20

  /** The canvas: the current picture, both stacks (top at the end), and
      whether a brush stroke is in progress. */
  datatype Canvas<P> = Canvas(picture: P, undo: seq<P>, redo: seq<P>, drawing: bool)

  /** The canvas once the page has loaded: the blank picture is shown and
      has been saved once, so undo is available at once (and brings back
      the same blank picture) while there is nothing to redo. */
  function NewCanvas<P>(blank: P): (c: Canvas<P>)
    ensures c.picture == blank && c.undo == [blank] && c.redo == [] && !c.drawing
    ensures !UpdateButtons(c).undoDisabled && UpdateButtons(c).redoDisabled
  {
    Save(Canvas(blank, [], [], false))
  }

  /** Push the current picture on the undo stack, first dropping the oldest
      entry when the stack already holds `MaxUndoSteps`. */
  function Save<P>(c: Canvas<P>): (c': Canvas<P>)
    ensures c'.picture == c.picture && c'.redo == c.redo && c'.drawing == c.drawing
    ensures |c'.undo| > 0 && c'.undo[|c'.undo| - 1] == c.picture
    ensures |c.undo| < MaxUndoSteps ==> c'.undo == c.undo + [c.picture]
    ensures |c.undo| >= MaxUndoSteps ==> c'.undo[..|c'.undo| - 1] == c.undo[1..]
    ensures |c'.undo| == if |c.undo| < MaxUndoSteps then |c.undo| + 1 else |c.undo|
  {
    var kept := if |c.undo| >= MaxUndoSteps then c.undo[1..] else c.undo;
    c.(undo := kept + [c.picture])
  }

  /** Go back one step: the current picture goes on the redo stack and the
      top of the undo stack is shown; nothing happens when there is nothing
      to undo. */
  function Undo<P>(c: Canvas<P>): (c': Canvas<P>)
    ensures |c.undo| == 0 ==> c' == c
    ensures |c.undo| > 0 ==>
      && c'.picture == c.undo[|c.undo| - 1]
      && c'.undo == c.undo[..|c.undo| - 1]
      && c'.redo == c.redo + [c.picture]
    ensures |c'.undo| + |c'.redo| == |c.undo| + |c.redo|
    ensures c'.drawing == c.drawing
  {
    if |c.undo| > 0 then
      var n := |c.undo|;
      c.(picture := c.undo[n - 1], undo := c.undo[..n - 1], redo := c.redo + [c.picture])
    else c
  }

  /** Go forward one step: the mirror image of `Undo`. No cap is applied
      to the undo stack here. */
  function Redo<P>(c: Canvas<P>): (c': Canvas<P>)
    ensures |c.redo| == 0 ==> c' == c
    ensures |c.redo| > 0 ==>
      && c'.picture == c.redo[|c.redo| - 1]
      && c'.redo == c.redo[..|c.redo| - 1]
      && c'.undo == c.undo + [c.picture]
    ensures |c'.undo| + |c'.redo| == |c.undo| + |c.redo|
    ensures c'.drawing == c.drawing
  {
    if |c.redo| > 0 then
      var n := |c.redo|;
      c.(picture := c.redo[n - 1], redo := c.redo[..n - 1], undo := c.undo + [c.picture])
    else c
  }

  /** Swapping the two stacks turns one into the other. */
  function Swapped<P>(c: Canvas<P>): Canvas<P> {
    c.(undo := c.redo, redo := c.undo)
  }

  /** Which of the two buttons are greyed out. */
  datatype Buttons = Buttons(undoDisabled: bool, redoDisabled: bool)

  /** A button is disabled exactly when its stack is empty, which is
      exactly when pressing it would change nothing. */
  function UpdateButtons<P>(c: Canvas<P>): (bs: Buttons)
    ensures bs.undoDisabled <==> Undo(c) == c
    ensures bs.redoDisabled <==> Redo(c) == c
  {
    assert |c.undo| > 0 ==> |Undo(c).redo| != |c.redo|;
    assert |c.redo| > 0 ==> |Redo(c).undo| != |c.undo|;
    Buttons(|c.undo| == 0, |c.redo| == 0)
  }

  /** What happens on the canvas. */
  datatype Event<P> =
    | Start(stamped: Option<P>)  // press: `stamped` is the picture with the selected stamp placed, if one is selected
    | Move(drawn: P)             // pointer moves: `drawn` is the picture with the stroke extended
    | End                        // release or leaving the canvas
    | UndoPressed
    | RedoPressed
    | Cleared(blank: P)          // the clear button: `blank` is the empty picture

  /** The canvas after `e`. A press saves the picture first; placing a stamp,
      finishing a stroke and clearing the canvas each empty the redo
      stack. */
  function Step<P>(c: Canvas<P>, e: Event<P>): (c': Canvas<P>)
    ensures (e.Start? && e.stamped.Some?) || (e.End? && c.drawing) || e.Cleared? ==> c'.redo == []
    ensures e.Start? && e.stamped.None? ==> c'.drawing && c'.redo == c.redo
    ensures e.Move? && !c.drawing ==> c' == c
    ensures e.End? && !c.drawing ==> c' == c
    ensures !e.Start? ==> c'.drawing == (c.drawing && !e.End?)
  {
    match e
    case Start(stamped) =>
      var saved := Save(c);
      if stamped.Some? then saved.(picture := stamped.value, redo := [])
      else saved.(drawing := true)
    case Move(drawn) => if c.drawing then c.(picture := drawn) else c
    case End => if c.drawing then c.(drawing := false, redo := []) else c
    case UndoPressed => Undo(c)
    case RedoPressed => Redo(c)
    case Cleared(blank) => Save(c).(picture := blank, redo := [])
  }

  /** The canvas after the events `es`, in order. */
  function Run<P>(c: Canvas<P>, es: seq<Event<P>>): Canvas<P>
    decreases |es|
  {
    if es == [] then c else Run(Step(c, es[0]), es[1..])
  }

  /** Redo is undo on the swapped stacks: the two are mirror images. */
  lemma RedoMirrorsUndo<P>(c: Canvas<P>)
    ensures Redo(c) == Swapped(Undo(Swapped(c)))
  {
  }

  /** Undo followed by redo gives back the picture and both stacks. */
  lemma UndoThenRedo<P>(c: Canvas<P>)
    requires |c.undo| > 0
    ensures Redo(Undo(c)) == c
  {
    var u := Undo(c);
    assert u.undo + [u.picture] == c.undo;
  }

  /** Redo followed by undo gives back the picture and both stacks. */
  lemma RedoThenUndo<P>(c: Canvas<P>)
    requires |c.redo| > 0
    ensures Undo(Redo(c)) == c
  {
    var r := Redo(c);
    assert r.redo + [r.picture] == c.redo;
  }

  /** Every event except redo keeps the undo stack within the cap. */
  lemma StepKeepsCap<P>(c: Canvas<P>, e: Event<P>)
    requires |c.undo| <= MaxUndoSteps && !e.RedoPressed?
    ensures |Step(c, e).undo| <= MaxUndoSteps
  {
  }

  /** A completed stroke: press, one movement, release. */
  function Stroke<P>(drawn: P): seq<Event<P>> {
    [Start(None), Move(drawn), End]
  }

  lemma StrokeEffect<P>(c: Canvas<P>, drawn: P)
    requires !c.drawing
    ensures Run(c, Stroke(drawn)) == Canvas(drawn, Save(c).undo, [], false)
  {
    var es := Stroke(drawn);
    var c1 := Step(c, es[0]);
    var c2 := Step(c1, es[1]);
    assert Run(c, es) == Run(c1, es[1..]);
    assert es[1..][1..] == [End];
    assert Run(c1, es[1..]) == Run(c2, [End]);
  }

  /** The cap is not an invariant of the history: with a full undo stack,
      undoing, pressing on the canvas (which saves) and pressing redo
      before releasing leaves one snapshot more than the cap. */
  lemma RedoCanExceedCap<P>(c: Canvas<P>, drawn: P)
    requires |c.undo| == MaxUndoSteps && !c.drawing
    ensures |Run(c, [UndoPressed, Start(None), RedoPressed, End]).undo| == MaxUndoSteps + 1
  {
    var es: seq<Event<P>> := [UndoPressed, Start(None), RedoPressed, End];
    var c1 := Step(c, es[0]);
    var c2 := Step(c1, es[1]);
    var c3 := Step(c2, es[2]);
    var c4 := Step(c3, es[3]);
    assert |c1.undo| == MaxUndoSteps - 1 && |c1.redo| == |c.redo| + 1;
    assert |c2.undo| == MaxUndoSteps && |c2.redo| == |c1.redo|;
    assert |c3.undo| == MaxUndoSteps + 1;
    assert |c4.undo| == MaxUndoSteps + 1;
    assert Run(c, es) == Run(c1, es[1..]);
    assert Run(c1, es[1..]) == Run(c2, es[2..]);
    assert Run(c2, es[2..]) == Run(c3, es[3..]);
    assert Run(c3, es[3..]) == Run(c4, []);
  }
}
