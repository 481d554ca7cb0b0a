/** Concrete runs in which the undo history of codemirror.js loses an edit or is wrong about a clean document. */
module HistoryFaults {
  import opened Options
  import opened Text
  import opened Selections
  import opened History

  lemma {:induction false} EventsOf(stack: seq<Event>)
    ensures Events(stack) == 0 <==> forall i :: 0 <= i < |stack| ==> stack[i].Sel?
    decreases |stack|
  {
    if stack != [] {
      var n := |stack| - 1;
      EventsOf(stack[..n]);
      assert forall i :: 0 <= i < n ==> stack[..n][i] == stack[i];
    }
  }

  /** The only event gives way to a selection. */
  lemma {:induction false} OnlyEventGone(done: seq<Event>, sel: Selection)
    requires TopIsEvent(done) && Events(done) == 1
    ensures !HasUsable(WithSel(done, sel, true), false, sel)
  {
    var n := |done| - 1;
    assert WithSel(done, sel, true)[..n] == done[..n];
    EventsOf(WithSel(done, sel, true));
  }

  /** An edit, after which text and generation are looked at, and an undo. */
  method EditAndUndo(t: Lines, sel: Selection, c: Change, after: Selection) returns (d: Doc, edited: Lines, gen: nat)
    requires Fits(t, c) && !(c.text == [""] && c.from == c.to)
    ensures fresh(d) && d.Valid() && d.text == t && d.past == [] && d.future == [Replaced(t, c)]
    ensures edited == Replaced(t, c) && gen == d.maxGeneration == 2 && d.cleanGeneration == 1
  {
    d := new Doc(t, sel);
    var merged := d.MakeChange(c, None, 0, 500, Some(1), after);
    edited, gen := d.text, d.generation;
    d.MakeChangeFromHistory(true, false, 0, 500, Some(2));
  }

  /**
   * A selection, a redo and another selection in one operation: the second selection takes the
   * place of the event that the redo put back, and nothing can be undone any more.
   */
  method EditIsLost(t: Lines, sel: Selection, c: Change, after: Selection, one: Selection, two: Selection) returns (d: Doc)
    requires Fits(t, c) && !(c.text == [""] && c.from == c.to)
    ensures d.text == Replaced(t, c) && !HasUsable(d.done, false, d.sel)
  {
    var edited, gen;
    d, edited, gen := EditAndUndo(t, sel, c, after);
    d.SetSelection(one, None, false, 0, 500, Some(3));
    d.MakeChangeFromHistory(false, false, 0, 500, Some(3));
    ChainCounts(d.text, d.done, d.past, d.meaning);
    OnlyEventGone(d.done, two);
    d.SetSelection(two, None, false, 0, 500, Some(3));
  }

  /**
   * clearHistory after an undo: the generation that the edit was given comes back without the
   * edit, and isClean says yes to it.
   */
  method CleanWithoutTheEdit(t: Lines, sel: Selection, c: Change, after: Selection) returns (d: Doc, edited: Lines, clean: bool)
    requires Fits(t, c) && !(c.text == [""] && c.from == c.to) && Replaced(t, c) != t
    ensures clean && edited != d.text
  {
    var gen;
    d, edited, gen := EditAndUndo(t, sel, c, after);
    d.ClearHistory();
    clean := d.IsClean(gen);
  }
}
